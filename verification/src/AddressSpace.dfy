/** The address space of a process (src/engine/process.c): page regions, file mappings,
    the page map of its memory, and the reference counts of the files it maps. */
module AddressSpace {
  import opened Spans
  import opened FileMappings

  const MEM32_MAX_PAGES: int := 65536
  const GUARDED_PAGES: int := 17
  const EEXIST: int := -17

  datatype Kind = Module | Stack | Startup | Brk | Mapping | Guard | Library

  type Region = Span<Kind>

  // ---- regions ---------------------------------------------------------------------

  ghost predicate Bounded(rs: seq<Region>) {
    forall i :: 0 <= i < |rs| ==> 0 <= rs[i].start && End(rs[i]) <= U64_MAX
  }

  /** No region meets the pages [first, first + count). */
  predicate Unreserved(rs: seq<Region>, first: int, count: int) {
    forall i :: 0 <= i < |rs| ==> !Meets(rs[i], first, first + count)
  }

  ghost predicate FirstMet(rs: seq<Region>, first: int, count: int, k: int) {
    && 0 <= k < |rs| && Meets(rs[k], first, first + count)
    && forall i :: 0 <= i < k ==> !Meets(rs[i], first, first + count)
  }

  /** `native_process_capsule_region_is_reserved`: the first region met, or -1. */
  method FindRegion(rs: seq<Region>, first: int, count: int) returns (k: int)
    requires 0 <= first && 0 <= count
    ensures k == -1 || FirstMet(rs, first, count, k)
    ensures k == -1 <==> count == 0 || first > U64_MAX - count || Unreserved(rs, first, count)
  {
    if count == 0 || first > U64_MAX - count {
      return -1;
    }
    k := 0;
    while k < |rs|
      invariant 0 <= k <= |rs|
      invariant forall i :: 0 <= i < k ==> !Meets(rs[i], first, first + count)
    {
      if first < rs[k].start + rs[k].length && rs[k].start < first + count {
        return;
      }
      k := k + 1;
    }
    return -1;
  }

  ghost predicate Mapped(kind: Kind) {
    kind == Mapping
  }

  /** `native_process_capsule_build_mapping_release`. */
  method BuildRegions(rs: seq<Region>, first: int, count: int) returns (replacement: seq<Region>)
    requires 0 < count && forall i :: 0 <= i < |rs| ==> rs[i].length > 0
    ensures replacement == Cut(rs, first, first + count, Mapped)
  {
    replacement := [];
    var end := first + count;
    var i := 0;
    while i < |rs|
      invariant 0 <= i <= |rs|
      invariant replacement == Cut(rs[..i], first, end, Mapped)
    {
      assert rs[..i + 1][..i] == rs[..i];
      var pieces := SplitRegion(rs[i], first, end);
      replacement := replacement + pieces;
      i := i + 1;
    }
    assert rs[..|rs|] == rs;
  }

  /** What is left of a region. */
  method SplitRegion(was: Region, first: int, end: int) returns (pieces: seq<Region>)
    requires was.length > 0 && first < end
    ensures pieces == Pieces(was, first, end, Mapped)
  {
    pieces := [];
    var wasEnd := was.start + was.length;
    var from := if was.start > first then was.start else first;
    var to := if wasEnd < end then wasEnd else end;
    if was.tag != Mapping || from >= to {
      return [was];
    }
    if was.start < from {
      pieces := pieces + [Span(was.start, from - was.start, was.tag)];
    }
    if to < wasEnd {
      pieces := pieces + [Span(to, wasEnd - to, was.tag)];
    }
  }

  // ---- the page map of a memory ----------------------------------------------------

  /** A memory as the address space sees it: which of its pages are mapped, how many lie in
      the linear extent, the most pages an address may name, and the most it can hold. */
  datatype Memory = Memory(mapped: seq<bool>, linear: nat, limit: nat, capacity: nat)

  function Pages(m: Memory): int {
    |m.mapped|
  }

  predicate PageMapped(m: Memory, page: int) {
    0 <= page < |m.mapped| && m.mapped[page]
  }

  ghost predicate Unmapped(m: Memory, first: int, count: int) {
    forall page :: first <= page < first + count ==> !PageMapped(m, page)
  }

  predicate Fits(m: Memory, first: int, count: int) {
    first <= Pages(m) && count <= Pages(m) - first
  }

  function WithPages(m: Memory, first: int, count: int, mapped: bool): Memory {
    m.(mapped := seq(|m.mapped|, p requires 0 <= p < |m.mapped| =>
      if first <= p < first + count then mapped else m.mapped[p]))
  }

  function Grown(m: Memory, pages: int): Memory
    requires Pages(m) <= pages
  {
    m.(mapped := m.mapped + seq(pages - Pages(m), _ => false))
  }

  /** Whether a page of [first, first + count) is mapped. */
  method AnyMapped(m: Memory, first: int, count: int) returns (found: bool)
    requires 0 <= first && 0 <= count
    ensures found <==> !Unmapped(m, first, count)
  {
    var end := if first + count < Pages(m) then first + count else Pages(m);
    var page := first;
    while page < end
      invariant first <= page
      invariant forall p :: first <= p < page ==> !PageMapped(m, p)
    {
      if PageMapped(m, page) {
        return true;
      }
      page := page + 1;
    }
    return false;
  }

  // ---- the search for a free range -------------------------------------------------

  /** A range that no region and no mapped page meets. */
  ghost predicate Vacant(rs: seq<Region>, m: Memory, first: int, count: int) {
    Unreserved(rs, first, count) && Unmapped(m, first, count)
  }

  method IsVacant(rs: seq<Region>, m: Memory, first: int, count: int) returns (vacant: bool)
    requires 0 <= first && 0 < count && first + count <= U64_MAX
    ensures vacant <==> Vacant(rs, m, first, count)
  {
    var k := FindRegion(rs, first, count);
    if k != -1 {
      return false;
    }
    var found := AnyMapped(m, first, count);
    return !found;
  }

  /** A vacant range in the linear extent. */
  ghost predicate InExtent(rs: seq<Region>, m: Memory, first: int, count: int) {
    0 <= first && first + count <= m.linear && first + count <= m.limit && Vacant(rs, m, first, count)
  }

  /** A vacant range above it, all of whose addresses are less than 2^31. */
  ghost predicate AboveExtent(rs: seq<Region>, m: Memory, first: int, count: int) {
    && m.linear <= first && first + count <= m.limit && Address(first) + Address(count) <= 0x8000_0000
    && Vacant(rs, m, first, count)
  }

  /** A range the search may return. */
  ghost predicate Candidate(rs: seq<Region>, m: Memory, first: int, count: int) {
    InExtent(rs, m, first, count) || AboveExtent(rs, m, first, count)
  }

  /** The range the search returns: the lowest in the extent, or else the highest above it. */
  ghost predicate Chosen(rs: seq<Region>, m: Memory, first: int, count: int) {
    if exists c :: InExtent(rs, m, c, count)
    then InExtent(rs, m, first, count) && forall c :: InExtent(rs, m, c, count) ==> first <= c
    else AboveExtent(rs, m, first, count) && forall c :: AboveExtent(rs, m, c, count) ==> c <= first
  }

  /** The first pass: upwards through the linear extent. */
  method SearchUp(rs: seq<Region>, m: Memory, limit: int, count: int) returns (first: int)
    requires 0 < count && 0 <= limit <= U64_MAX
    ensures first == -1 <==> forall c :: 0 <= c && c + count <= limit ==> !Vacant(rs, m, c, count)
    ensures first != -1 ==>
              && 0 <= first && first + count <= limit && Vacant(rs, m, first, count)
              && forall c :: 0 <= c < first ==> !Vacant(rs, m, c, count)
  {
    if count > limit {
      return -1;
    }
    first := 0;
    while true
      invariant 0 <= first <= limit - count
      invariant forall c :: 0 <= c < first ==> !Vacant(rs, m, c, count)
      decreases limit - first
    {
      var vacant := IsVacant(rs, m, first, count);
      if vacant {
        return;
      }
      if first == limit - count {
        return -1;
      }
      first := first + 1;
    }
  }

  /** The second pass: downwards from `limit`, not below `low`. */
  method SearchDown(rs: seq<Region>, m: Memory, low: int, limit: int, count: int) returns (first: int)
    requires 0 < count && 0 <= low && 0 <= limit <= U64_MAX
    ensures first == -1 <==> forall c :: low <= c && c + count <= limit ==> !Vacant(rs, m, c, count)
    ensures first != -1 ==>
              && low <= first && first + count <= limit && Vacant(rs, m, first, count)
              && forall c :: first < c && c + count <= limit ==> !Vacant(rs, m, c, count)
  {
    if count > limit {
      return -1;
    }
    first := limit - count;
    while true
      invariant 0 <= first <= limit - count
      invariant forall c :: first < c && c + count <= limit ==> !Vacant(rs, m, c, count)
      decreases first
    {
      if first < low {
        return -1;
      }
      var vacant := IsVacant(rs, m, first, count);
      if vacant {
        return;
      }
      if first == 0 {
        return -1;
      }
      first := first - 1;
    }
  }

  /** The search of `native_process_capsule_mmap_range` without an address: holes of the linear
      extent first, then below the ceiling of signed addresses. */
  method Search(rs: seq<Region>, m: Memory, count: int) returns (first: int)
    requires 0 < count && m.limit <= U64_MAX
    ensures first != -1 ==> Chosen(rs, m, first, count)
    ensures first == -1 <==> forall c :: !Candidate(rs, m, c, count)
  {
    var low := if m.linear < m.limit then m.linear else m.limit;
    var high := (0x7fff_ffff + 1) / PAGE;
    if high > m.limit {
      high := m.limit;
    }
    first := SearchUp(rs, m, low, count);
    assert forall c :: InExtent(rs, m, c, count) ==> 0 <= c && c + count <= low;
    if first == -1 {
      first := SearchDown(rs, m, low, high, count);
      CeilingIs(rs, m, count);
      assert forall c :: AboveExtent(rs, m, c, count) ==> low <= c && c + count <= high;
      assert forall c :: !InExtent(rs, m, c, count);
    } else {
      assert InExtent(rs, m, first, count);
    }
    assert first != -1 ==> Candidate(rs, m, first, count);
  }

  /** Some range of the extent ends by address 2^31, or none is vacant there. */
  ghost predicate SignedFit(rs: seq<Region>, m: Memory, count: int) {
    (exists c :: InExtent(rs, m, c, count)) ==>
      exists c :: InExtent(rs, m, c, count) && Address(c) + Address(count) <= 0x8000_0000
  }

  /** Only the second pass looks at the ceiling: a search ends below it exactly when the extent
      has room below it, or has none. */
  lemma ChosenSigned(rs: seq<Region>, m: Memory, first: int, count: int)
    requires Chosen(rs, m, first, count)
    ensures Address(first) + Address(count) <= 0x8000_0000 <==> SignedFit(rs, m, count)
    ensures m.linear <= 0x8000 ==> SignedFit(rs, m, count)
  {
    if InExtent(rs, m, first, count) {
      if c :| InExtent(rs, m, c, count) && Address(c) + Address(count) <= 0x8000_0000 {
        assert first <= c;
      }
    }
  }

  /** The extent reaches past the ceiling, and its one hole lies there. */
  lemma ChosenUnsigned()
    ensures
      var rs, m := [Span(0, 0x8000, Mapping)], Memory([], 0x8001, 0x8001, 0x8001);
      && Chosen(rs, m, 0x8000, 1) && Address(0x8000) + Address(1) > 0x8000_0000
      && !SignedFit(rs, m, 1)
  {
    var rs, m := [Span(0, 0x8000, Mapping)], Memory([], 0x8001, 0x8001, 0x8001);
    assert InExtent(rs, m, 0x8000, 1);
    forall c | InExtent(rs, m, c, 1)
      ensures 0x8000 <= c
    {
      assert !Meets(rs[0], c, c + 1);
    }
    ChosenSigned(rs, m, 0x8000, 1);
  }

  lemma CeilingIs(rs: seq<Region>, m: Memory, count: int)
    ensures forall c :: AboveExtent(rs, m, c, count) <==>
              m.linear <= c && c + count <= m.limit && c + count <= 0x8000 && Vacant(rs, m, c, count)
  {
    forall c
      ensures Address(c) + Address(count) <= 0x8000_0000 <==> c + count <= 0x8000
    {
    }
  }

  // ---- invariants ------------------------------------------------------------------

  /** Every file-mapped byte lies on a page of a mapping region. */
  ghost predicate Backed(rs: seq<Region>, ms: seq<FileMapping>) {
    forall a, target :: Translates(ms, a, target) ==> Covers(rs, PageOf(a), Mapping)
  }

  ghost predicate LibrariesBelow(rs: seq<Region>, limit: int) {
    forall i :: 0 <= i < |rs| && rs[i].tag == Library ==> End(rs[i]) <= limit - GUARDED_PAGES
  }

  ghost predicate Sound(rs: seq<Region>, ms: seq<FileMapping>, refs: map<int, int>) {
    && Tidy(rs) && Bounded(rs)
    && Tidy(Views(ms)) && AllProper(ms)
    && Backed(rs, ms)
    && Held(ms, refs)
  }

  lemma BackedAppend(rs: seq<Region>, ms: seq<FileMapping>, r: Region)
    requires Backed(rs, ms)
    ensures Backed(rs + [r], ms)
  {
    forall a, target | Translates(ms, a, target)
      ensures Covers(rs + [r], PageOf(a), Mapping)
    {
      CoversOne(rs, r, PageOf(a), Mapping);
    }
  }

  lemma ReleaseBackedAt(rs: seq<Region>, ms: seq<FileMapping>, first: int, count: int, a: int, target: Target)
    requires Tidy(rs) && Tidy(Views(ms)) && Backed(rs, ms) && 0 < count
    requires Translates(Release(ms, Address(first), Address(first + count)), a, target)
    ensures Covers(Cut(rs, first, first + count, Mapped), PageOf(a), Mapping)
  {
    var lo, hi := Address(first), Address(first + count);
    assert Translates(ms, a, target) && !(lo <= a < hi) by {
      ReleaseIsCut(ms, lo, hi);
      CutCovers(Views(ms), lo, hi, Any, a, target);
    }
    PageOfRange(a, first, count);
    CutCovers(rs, first, first + count, Mapped, PageOf(a), Mapping);
  }

  lemma ReleaseBacked(rs: seq<Region>, ms: seq<FileMapping>, first: int, count: int)
    requires Tidy(rs) && Tidy(Views(ms)) && Backed(rs, ms) && 0 < count
    ensures Backed(Cut(rs, first, first + count, Mapped), Release(ms, Address(first), Address(first + count)))
  {
    var ms' := Release(ms, Address(first), Address(first + count));
    forall a, target | Translates(ms', a, target)
      ensures Covers(Cut(rs, first, first + count, Mapped), PageOf(a), Mapping)
    {
      ReleaseBackedAt(rs, ms, first, count, a, target);
    }
  }
}
