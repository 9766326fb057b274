/** The file mappings of a process and the references they hold on file objects
    (src/engine/process.c). */
module FileMappings {
  import opened Spans

  const PAGE: int := 65536

  function Address(page: int): int {
    page * PAGE
  }

  function PageOf(a: int): int {
    a / PAGE
  }

  predicate Aligned(a: int) {
    a % PAGE == 0
  }

  lemma AlignedIs(a: int)
    ensures Aligned(a) <==> a == Address(PageOf(a))
  {
  }

  lemma AddressAligned(page: int)
    ensures Aligned(Address(page)) && PageOf(Address(page)) == page
  {
  }

  lemma AddressSum(page: int, count: int)
    ensures Address(page + count) == Address(page) + Address(count)
  {
  }

  lemma PageOfRange(a: int, first: int, count: int)
    ensures first <= PageOf(a) < first + count <==> Address(first) <= a < Address(first + count)
  {
  }

  /** How many pages hold `length` bytes. */
  function PagesFor(length: int): int {
    (length + PAGE - 1) / PAGE
  }

  /** The pages of the bytes from a page boundary on are those that begin in the range. */
  lemma PagesForAt(address: int, length: int, page: int)
    requires Aligned(address) && 0 < length
    ensures 0 < PagesFor(length)
    ensures PageOf(address) <= page < PageOf(address) + PagesFor(length) <==>
            address <= Address(page) < address + length
  {
  }

  const U64_MAX: int := 0xffff_ffff_ffff_ffff
  const EINVAL: int := -22
  const ENOMEM: int := -12

  datatype FileMapping = FileMapping(address: int, length: int, offset: int, file: int, shared: bool, writable: bool)

  /** Where a mapping leads: address `a` translates to offset `a + delta` of `file`. */
  datatype Target = Target(file: int, delta: int, shared: bool, writable: bool)

  ghost function View(m: FileMapping): Span<Target> {
    Span(m.address, m.length, Target(m.file, m.offset - m.address, m.shared, m.writable))
  }

  ghost function Views(ms: seq<FileMapping>): seq<Span<Target>> {
    seq(|ms|, i requires 0 <= i < |ms| => View(ms[i]))
  }

  /** Address `a` is byte `offset` of `file`. */
  ghost predicate Translates(ms: seq<FileMapping>, a: int, target: Target) {
    Covers(Views(ms), a, target)
  }

  /** A record as `native_process_capsule_record_file_mapping` accepts it. */
  predicate Proper(m: FileMapping) {
    && 0 < m.length && 0 <= m.address && Aligned(m.address) && m.address + m.length <= U64_MAX
    && 0 <= m.offset && m.offset + m.length <= U64_MAX
  }

  ghost predicate AllProper(ms: seq<FileMapping>) {
    forall i :: 0 <= i < |ms| ==> Proper(ms[i])
  }

  // ---- reference counts ------------------------------------------------------------

  /** How many records name `file`. */
  ghost function Records(ms: seq<FileMapping>, file: int): nat {
    if ms == [] then 0 else Records(ms[..|ms| - 1], file) + if ms[|ms| - 1].file == file then 1 else 0
  }

  lemma {:induction false} RecordsAppend(a: seq<FileMapping>, b: seq<FileMapping>, file: int)
    ensures Records(a + b, file) == Records(a, file) + Records(b, file)
  {
    if b == [] {
      assert a + b == a;
    } else {
      assert (a + b)[..|a + b| - 1] == a + b[..|b| - 1];
      RecordsAppend(a, b[..|b| - 1], file);
    }
  }

  lemma RecordsOne(m: FileMapping, file: int)
    ensures Records([m], file) == if m.file == file then 1 else 0
  {
    assert [m][..0] == [];
  }

  /** Every record's file is counted, and holds at least its records. */
  ghost predicate Held(ms: seq<FileMapping>, refs: map<int, int>) {
    && (forall i :: 0 <= i < |ms| ==> ms[i].file in refs)
    && (forall file :: file in refs ==> Records(ms, file) <= refs[file])
  }

  /** The references that are not held by `ms` are the same before and after. */
  ghost predicate SameOthers(ms: seq<FileMapping>, refs: map<int, int>, ms': seq<FileMapping>, refs': map<int, int>) {
    && refs'.Keys == refs.Keys
    && forall file :: file in refs ==> refs'[file] - Records(ms', file) == refs[file] - Records(ms, file)
  }

  /** Take a reference for every record. */
  method RetainAll(ms: seq<FileMapping>, refs: map<int, int>) returns (refs': map<int, int>)
    requires forall i :: 0 <= i < |ms| ==> ms[i].file in refs
    ensures refs'.Keys == refs.Keys
    ensures forall file :: file in refs ==> refs'[file] == refs[file] + Records(ms, file)
  {
    refs' := refs;
    var i := 0;
    while i < |ms|
      invariant 0 <= i <= |ms| && refs'.Keys == refs.Keys
      invariant forall file :: file in refs ==> refs'[file] == refs[file] + Records(ms[..i], file)
    {
      assert ms[..i + 1][..i] == ms[..i];
      refs' := refs'[ms[i].file := refs'[ms[i].file] + 1];
      i := i + 1;
    }
    assert ms[..|ms|] == ms;
  }

  /** Drop the reference of every record. */
  method ReleaseAll(ms: seq<FileMapping>, refs: map<int, int>) returns (refs': map<int, int>)
    requires forall i :: 0 <= i < |ms| ==> ms[i].file in refs
    ensures refs'.Keys == refs.Keys
    ensures forall file :: file in refs ==> refs'[file] == refs[file] - Records(ms, file)
  {
    refs' := refs;
    var i := 0;
    while i < |ms|
      invariant 0 <= i <= |ms| && refs'.Keys == refs.Keys
      invariant forall file :: file in refs ==> refs'[file] == refs[file] - Records(ms[..i], file)
    {
      assert ms[..i + 1][..i] == ms[..i];
      refs' := refs'[ms[i].file := refs'[ms[i].file] - 1];
      i := i + 1;
    }
    assert ms[..|ms|] == ms;
  }

  // ---- releasing a range -----------------------------------------------------------

  ghost predicate Any(target: Target) {
    true
  }

  /** What is left of `m` outside [lo, hi). */
  function Parts(m: FileMapping, lo: int, hi: int): seq<FileMapping> {
    if m.address + m.length <= lo || hi <= m.address then [m]
    else
      (if m.address < lo then [m.(length := lo - m.address)] else [])
      + (if hi < m.address + m.length
         then [m.(address := hi, length := m.address + m.length - hi, offset := m.offset + hi - m.address)]
         else [])
  }

  ghost function Release(ms: seq<FileMapping>, lo: int, hi: int): seq<FileMapping> {
    if ms == [] then [] else Release(ms[..|ms| - 1], lo, hi) + Parts(ms[|ms| - 1], lo, hi)
  }

  /** A split moves the offset along with the address: releasing is cutting, so every
      surviving address keeps its translation. */
  lemma {:induction false} ReleaseIsCut(ms: seq<FileMapping>, lo: int, hi: int)
    ensures Views(Release(ms, lo, hi)) == Cut(Views(ms), lo, hi, Any)
  {
    if ms != [] {
      var front, last := ms[..|ms| - 1], ms[|ms| - 1];
      ReleaseIsCut(front, lo, hi);
      assert Views(ms)[..|ms| - 1] == Views(front);
      PartsAreOf(last, lo, hi);
      ViewsAppend(Release(front, lo, hi), Parts(last, lo, hi));
    }
  }

  /** Releasing a range takes the translations of its addresses, and no others. */
  lemma ReleaseTranslates(ms: seq<FileMapping>, lo: int, hi: int, a: int, target: Target)
    requires lo < hi && forall i :: 0 <= i < |ms| ==> ms[i].length > 0
    ensures Translates(Release(ms, lo, hi), a, target) <==> Translates(ms, a, target) && !(lo <= a < hi)
  {
    ReleaseIsCut(ms, lo, hi);
    CutCovers(Views(ms), lo, hi, Any, a, target);
  }

  lemma ViewsAppend(a: seq<FileMapping>, b: seq<FileMapping>)
    ensures Views(a + b) == Views(a) + Views(b)
  {
  }

  lemma PartsAreOf(m: FileMapping, lo: int, hi: int)
    ensures Views(Parts(m, lo, hi)) == Pieces(View(m), lo, hi, Any)
  {
  }

  lemma PartsNothing(m: FileMapping, lo: int, hi: int)
    requires !Meets(View(m), lo, hi)
    ensures Parts(m, lo, hi) == [m]
  {
  }

  lemma {:induction false} ReleaseNothing(ms: seq<FileMapping>, lo: int, hi: int)
    requires forall i :: 0 <= i < |ms| ==> !Meets(View(ms[i]), lo, hi)
    ensures Release(ms, lo, hi) == ms
  {
    if ms != [] {
      var front, last := ms[..|ms| - 1], ms[|ms| - 1];
      ReleaseNothing(front, lo, hi);
      PartsNothing(last, lo, hi);
      assert ms == front + [last];
    }
  }

  lemma {:induction false} ReleaseProper(ms: seq<FileMapping>, lo: int, hi: int)
    requires AllProper(ms) && lo < hi && Aligned(hi)
    ensures AllProper(Release(ms, lo, hi))
  {
    if ms != [] {
      ReleaseProper(ms[..|ms| - 1], lo, hi);
      assert Proper(ms[|ms| - 1]);
    }
  }

  lemma {:induction false} ReleaseFiles(ms: seq<FileMapping>, lo: int, hi: int, refs: map<int, int>)
    requires forall i :: 0 <= i < |ms| ==> ms[i].file in refs
    ensures forall i :: 0 <= i < |Release(ms, lo, hi)| ==> Release(ms, lo, hi)[i].file in refs
  {
    if ms != [] {
      ReleaseFiles(ms[..|ms| - 1], lo, hi, refs);
    }
  }

  /** `native_process_capsule_build_file_mapping_release`: the new list, every record of it
      holding a reference of its own. */
  method BuildRelease(ms: seq<FileMapping>, refs: map<int, int>, address: int, length: int)
    returns (ok: bool, replacement: seq<FileMapping>, refs': map<int, int>)
    requires 0 <= address && 0 <= length
    requires forall i :: 0 <= i < |ms| ==> ms[i].length > 0 && ms[i].file in refs
    ensures ok <==> length > 0 && Aligned(address) && Aligned(length) && address <= U64_MAX - length
    ensures ok ==> replacement == Release(ms, address, address + length)
    ensures forall i :: 0 <= i < |replacement| ==> replacement[i].file in refs
    ensures refs'.Keys == refs.Keys
    ensures forall file :: file in refs ==> refs'[file] == refs[file] + Records(replacement, file)
  {
    replacement, refs' := [], refs;
    ok := length > 0 && Aligned(address) && Aligned(length) && address <= U64_MAX - length;
    if !ok {
      return;
    }
    replacement := BuildList(ms, address, address + length);
    ReleaseFiles(ms, address, address + length, refs);
    refs' := RetainAll(replacement, refs);
  }

  method BuildList(ms: seq<FileMapping>, address: int, end: int) returns (replacement: seq<FileMapping>)
    requires address < end && forall i :: 0 <= i < |ms| ==> ms[i].length > 0
    ensures replacement == Release(ms, address, end)
  {
    replacement := [];
    var i := 0;
    while i < |ms|
      invariant 0 <= i <= |ms|
      invariant replacement == Release(ms[..i], address, end)
    {
      assert ms[..i + 1][..i] == ms[..i];
      var parts := Split(ms[i], address, end);
      replacement := replacement + parts;
      i := i + 1;
    }
    assert ms[..|ms|] == ms;
  }

  method Split(was: FileMapping, address: int, end: int) returns (parts: seq<FileMapping>)
    requires was.length > 0 && address < end
    ensures parts == Parts(was, address, end)
  {
    parts := [];
    var wasEnd := was.address + was.length;
    var from := if was.address > address then was.address else address;
    var to := if wasEnd < end then wasEnd else end;
    if from >= to {
      return [was];
    }
    if was.address < from {
      parts := parts + [was.(length := from - was.address)];
    }
    if to < wasEnd {
      parts := parts + [was.(address := to, length := wasEnd - to, offset := was.offset + (to - was.address))];
    }
  }
}
