/** Memory pages with reference counts (src/engine/op/execute_memory.c), and the slots of
    memories that refer to them. */
module PageCounts {

  type Bytes = seq<int>

  datatype Page = Page(bytes: Bytes, refs: int, shared: bool)

  type Pages = map<int, Page>

  /** A slot without a page. */
  const NONE: int := -1

  /** A memory object, or the record of one in a checkpoint. */
  datatype Memory = Memory(
    slots: seq<int>,
    protection: seq<int>,
    mappings: seq<(int, int, int, int)>,
    linearPages: int,
    maxPages: int,
    virtualMaxPages: int,
    hasMax: bool,
    is64: bool,
    virtualMemory: bool)

  // ---- counting --------------------------------------------------------------------

  /** How many slots hold page `p`. */
  function Count(slots: seq<int>, p: int): nat {
    if slots == [] then 0 else Count(slots[..|slots| - 1], p) + if slots[|slots| - 1] == p then 1 else 0
  }

  ghost function Total(ms: seq<Memory>, p: int): nat {
    if ms == [] then 0 else Total(ms[..|ms| - 1], p) + Count(ms[|ms| - 1].slots, p)
  }

  lemma {:induction false} CountPositive(slots: seq<int>, i: int)
    requires 0 <= i < |slots|
    ensures Count(slots, slots[i]) > 0
  {
    if i < |slots| - 1 {
      CountPositive(slots[..|slots| - 1], i);
    }
  }

  lemma {:induction false} CountNone(slots: seq<int>, p: int)
    requires forall i :: 0 <= i < |slots| ==> slots[i] != p
    ensures Count(slots, p) == 0
  {
    if slots != [] {
      CountNone(slots[..|slots| - 1], p);
    }
  }

  lemma {:induction false} CountUpdate(slots: seq<int>, i: int, q: int, p: int)
    requires 0 <= i < |slots|
    ensures Count(slots[i := q], p) == Count(slots, p) - (if slots[i] == p then 1 else 0) + if q == p then 1 else 0
  {
    var n := |slots| - 1;
    if i == n {
      assert slots[i := q][..n] == slots[..n];
    } else {
      assert slots[i := q][..n] == slots[..n][i := q];
      CountUpdate(slots[..n], i, q, p);
    }
  }

  lemma {:induction false} TotalUpdate(ms: seq<Memory>, a: int, m: Memory, p: int)
    requires 0 <= a < |ms|
    ensures Total(ms[a := m], p) == Total(ms, p) - Count(ms[a].slots, p) + Count(m.slots, p)
  {
    var n := |ms| - 1;
    if a == n {
      assert ms[a := m][..n] == ms[..n];
    } else {
      assert ms[a := m][..n] == ms[..n][a := m];
      TotalUpdate(ms[..n], a, m, p);
    }
  }

  lemma {:induction false} TotalAtLeast(ms: seq<Memory>, a: int, p: int)
    requires 0 <= a < |ms|
    ensures Total(ms, p) >= Count(ms[a].slots, p)
  {
    if a < |ms| - 1 {
      TotalAtLeast(ms[..|ms| - 1], a, p);
    }
  }

  // ---- retaining and releasing -----------------------------------------------------

  ghost function RefsOf(pages: Pages, p: int): int {
    if p in pages then pages[p].refs else 0
  }

  ghost predicate Counted(pages: Pages) {
    forall p :: p in pages ==> pages[p].refs > 0
  }

  /** The pages left in `pages'` hold what they held. */
  ghost predicate SameContents(pages: Pages, pages': Pages) {
    forall p :: p in pages && p in pages' ==> pages'[p].bytes == pages[p].bytes && pages'[p].shared == pages[p].shared
  }

  function Retained(pages: Pages, p: int): Pages {
    if p in pages then pages[p := pages[p].(refs := pages[p].refs + 1)] else pages
  }

  /** A page whose last reference goes is freed. */
  function Released(pages: Pages, p: int): Pages {
    if p !in pages then pages
    else if pages[p].refs == 1 then pages - {p}
    else pages[p := pages[p].(refs := pages[p].refs - 1)]
  }

  /** Take a reference for every slot. */
  method RetainSlots(pages: Pages, slots: seq<int>) returns (pages': Pages)
    requires Counted(pages) && forall i :: 0 <= i < |slots| ==> slots[i] == NONE || slots[i] in pages
    ensures Counted(pages') && SameContents(pages, pages') && pages'.Keys == pages.Keys
    ensures forall p :: p != NONE ==> RefsOf(pages', p) == RefsOf(pages, p) + Count(slots, p)
  {
    pages' := pages;
    var i := 0;
    while i < |slots|
      invariant 0 <= i <= |slots|
      invariant Counted(pages') && SameContents(pages, pages') && pages'.Keys == pages.Keys
      invariant forall p :: p != NONE ==> RefsOf(pages', p) == RefsOf(pages, p) + Count(slots[..i], p)
    {
      assert slots[..i + 1][..i] == slots[..i];
      if slots[i] != NONE {
        pages' := Retained(pages', slots[i]);
      }
      i := i + 1;
    }
    assert slots[..|slots|] == slots;
  }

  /** Drop the reference of every slot. */
  method ReleaseSlots(pages: Pages, slots: seq<int>) returns (pages': Pages)
    requires Counted(pages) && NONE !in pages
    requires forall p :: p != NONE ==> RefsOf(pages, p) >= Count(slots, p)
    ensures Counted(pages') && SameContents(pages, pages') && pages'.Keys <= pages.Keys
    ensures forall p :: p != NONE ==> RefsOf(pages', p) == RefsOf(pages, p) - Count(slots, p)
  {
    pages' := pages;
    var i := 0;
    while i < |slots|
      invariant 0 <= i <= |slots|
      invariant Counted(pages') && SameContents(pages, pages') && pages'.Keys <= pages.Keys
      invariant forall p :: p != NONE ==> RefsOf(pages', p) == RefsOf(pages, p) - Count(slots[..i], p)
    {
      assert slots[..i + 1][..i] == slots[..i];
      CountPrefix(slots, i);
      if slots[i] != NONE {
        pages' := Released(pages', slots[i]);
      }
      i := i + 1;
    }
    assert slots[..|slots|] == slots;
  }

  lemma {:induction false} CountMonotone(slots: seq<int>, n: nat, p: int)
    requires n <= |slots|
    ensures Count(slots[..n], p) <= Count(slots, p)
    decreases |slots| - n
  {
    if n < |slots| {
      CountMonotone(slots, n + 1, p);
      assert slots[..n + 1][..n] == slots[..n];
    } else {
      assert slots[..n] == slots;
    }
  }

  lemma CountPrefix(slots: seq<int>, i: int)
    requires 0 <= i < |slots|
    ensures Count(slots[..i], slots[i]) < Count(slots, slots[i])
  {
    CountMonotone(slots, i + 1, slots[i]);
    assert slots[..i + 1][..i] == slots[..i];
  }
}
