/** Pages shared between mappings of the same file (src/engine/process.c), and writing them
    back (src/engine/guest_posix.c). */
module PageCache {
  import opened FileMappings

  const EACCES: int := -13
  const EFAULT: int := -14
  const EIO: int := -5

  type Bytes = seq<int>

  /** The cache entry for one page of a file: `page` names the physical page. */
  datatype Entry = Entry(file: int, offset: int, page: int)

  /** What the files hold. */
  type Files = map<int, Bytes>

  // ---- the cache -------------------------------------------------------------------

  ghost predicate Keyed(cache: seq<Entry>) {
    forall i, j :: 0 <= i < j < |cache| ==>
                     && cache[i].page != cache[j].page
                     && (cache[i].file != cache[j].file || cache[i].offset != cache[j].offset)
  }

  ghost predicate EntryOk(e: Entry, bytes: map<int, Bytes>, files: Files) {
    0 <= e.offset && Aligned(e.offset) && e.file in files && e.page in bytes && |bytes[e.page]| == PAGE
  }

  ghost predicate CacheOk(cache: seq<Entry>, bytes: map<int, Bytes>, files: Files) {
    Keyed(cache) && forall i :: 0 <= i < |cache| ==> EntryOk(cache[i], bytes, files)
  }

  /** Byte `k` of the page agrees with the file, as far as the file reaches. */
  ghost predicate Agrees(e: Entry, bytes: map<int, Bytes>, files: Files, k: int)
    requires EntryOk(e, bytes, files)
  {
    0 <= k < PAGE && e.offset + k < |files[e.file]| ==> files[e.file][e.offset + k] == bytes[e.page][k]
  }

  ghost predicate PageAgrees(e: Entry, bytes: map<int, Bytes>, files: Files)
    requires EntryOk(e, bytes, files)
  {
    forall k :: Agrees(e, bytes, files, k)
  }

  // ---- writing back ----------------------------------------------------------------

  function Splice(s: Bytes, at: int, new_: Bytes): Bytes
    requires 0 <= at && at + |new_| <= |s|
  {
    s[..at] + new_ + s[at + |new_|..]
  }

  lemma AlignedApart(a: int, b: int)
    requires Aligned(a) && Aligned(b) && a != b
    ensures a + PAGE <= b || b + PAGE <= a
  {
  }

  /** Writing part of a page to its place in the file makes that part agree, and makes no
      byte of any cached page disagree: other entries lie elsewhere. */
  lemma WriteBack(cache: seq<Entry>, bytes: map<int, Bytes>, files: Files, i: int, lo: int, hi: int, j: int, k: int)
    requires CacheOk(cache, bytes, files) && 0 <= i < |cache| && 0 <= j < |cache|
    requires 0 <= lo <= hi <= PAGE && cache[i].offset + hi <= |files[cache[i].file]|
    ensures var e := cache[i];
            var files' := files[e.file := Splice(files[e.file], e.offset + lo, bytes[e.page][lo..hi])];
            && EntryOk(cache[j], bytes, files')
            && (Agrees(cache[j], bytes, files, k) || (i == j && lo <= k < hi) ==> Agrees(cache[j], bytes, files', k))
  {
    var e, d := cache[i], cache[j];
    assert EntryOk(e, bytes, files) && EntryOk(d, bytes, files);
    if i != j && d.file == e.file {
      assert d.offset != e.offset;
      AlignedApart(d.offset, e.offset);
    }
  }

  // ---- coverage --------------------------------------------------------------------

  ghost predicate Contains(m: FileMapping, a: int) {
    m.address <= a < m.address + m.length
  }

  ghost predicate FileMapped(ms: seq<FileMapping>, a: int) {
    exists i :: 0 <= i < |ms| && Contains(ms[i], a)
  }

  method Covering(ms: seq<FileMapping>, a: int) returns (i: int)
    ensures i == -1 <==> !FileMapped(ms, a)
    ensures i != -1 ==> 0 <= i < |ms| && Contains(ms[i], a)
  {
    i := 0;
    while i < |ms|
      invariant 0 <= i <= |ms|
      invariant forall j :: 0 <= j < i ==> !Contains(ms[j], a)
    {
      if ms[i].address <= a && a < ms[i].address + ms[i].length {
        return;
      }
      i := i + 1;
    }
    return -1;
  }

  /** The coverage loop of `guest_posix_sync_file_range`. */
  method Covered(ms: seq<FileMapping>, address: int, end: int) returns (ok: bool)
    ensures ok <==> forall a :: address <= a < end ==> FileMapped(ms, a)
  {
    var cursor := address;
    while cursor < end
      invariant address <= cursor
      invariant forall a :: address <= a < cursor && a < end ==> FileMapped(ms, a)
      decreases end - cursor
    {
      var i := Covering(ms, cursor);
      if i == -1 {
        return false;
      }
      forall a | cursor <= a < ms[i].address + ms[i].length
        ensures FileMapped(ms, a)
      {
        assert Contains(ms[i], a);
      }
      cursor := if ms[i].address + ms[i].length < end then ms[i].address + ms[i].length else end;
    }
    return true;
  }

  // ---- bindings --------------------------------------------------------------------

  predicate MeetsPage(m: FileMapping, vp: int) {
    m.address < Address(vp + 1) && Address(vp) < m.address + m.length
  }

  /** Virtual page `vp` is the cached page of the file page that `m` puts there. */
  ghost predicate BoundAt(cache: seq<Entry>, table: seq<int>, m: FileMapping, vp: int, c: int) {
    && 0 <= vp < |table| && 0 <= c < |cache|
    && cache[c] == Entry(m.file, m.offset + Address(vp) - m.address, table[vp])
  }

  ghost predicate Bound(cache: seq<Entry>, table: seq<int>, m: FileMapping, vp: int) {
    exists c :: BoundAt(cache, table, m, vp, c)
  }

  ghost predicate AllBound(cache: seq<Entry>, table: seq<int>, ms: seq<FileMapping>) {
    forall i, vp :: 0 <= i < |ms| && ms[i].shared && MeetsPage(ms[i], vp) ==> Bound(cache, table, ms[i], vp)
  }

  // ---- the sync --------------------------------------------------------------------

  /** Every cached page in `was` but no longer in `dirty` agrees with its file. */
  ghost predicate Cleaned(cache: seq<Entry>, bytes: map<int, Bytes>, files: Files, was: set<int>, dirty: set<int>)
    requires CacheOk(cache, bytes, files)
  {
    forall c :: 0 <= c < |cache| && cache[c].page in was && cache[c].page !in dirty ==>
      PageAgrees(cache[c], bytes, files)
  }

  /** Whatever agreed still agrees. */
  ghost predicate Keeps(cache: seq<Entry>, bytes: map<int, Bytes>, files: Files, files': Files)
    requires CacheOk(cache, bytes, files) && CacheOk(cache, bytes, files')
  {
    forall c, k :: 0 <= c < |cache| && Agrees(cache[c], bytes, files, k) ==> Agrees(cache[c], bytes, files', k)
  }

  ghost predicate SameShape(files: Files, files': Files) {
    files'.Keys == files.Keys && forall f :: f in files ==> |files'[f]| == |files[f]|
  }

  ghost function Written(files: Files, e: Entry, page: Bytes, lo: int, hi: int): Files
    requires e.file in files && 0 <= lo <= hi <= |page| && 0 <= e.offset && e.offset + hi <= |files[e.file]|
  {
    files[e.file := Splice(files[e.file], e.offset + lo, page[lo..hi])]
  }

  lemma ChunkWritten(cache: seq<Entry>, bytes: map<int, Bytes>, files: Files, c: int, lo: int, hi: int)
    requires CacheOk(cache, bytes, files) && 0 <= c < |cache|
    requires 0 <= lo <= hi <= PAGE && cache[c].offset + hi <= |files[cache[c].file]|
    ensures var files' := Written(files, cache[c], bytes[cache[c].page], lo, hi);
            && SameShape(files, files') && CacheOk(cache, bytes, files') && Keeps(cache, bytes, files, files')
            && forall k :: lo <= k < hi ==> Agrees(cache[c], bytes, files', k)
  {
    var files' := Written(files, cache[c], bytes[cache[c].page], lo, hi);
    forall j | 0 <= j < |cache|
      ensures EntryOk(cache[j], bytes, files')
    {
      WriteBack(cache, bytes, files, c, lo, hi, j, 0);
    }
    forall j, k | 0 <= j < |cache| && Agrees(cache[j], bytes, files, k)
      ensures Agrees(cache[j], bytes, files', k)
    {
      WriteBack(cache, bytes, files, c, lo, hi, j, k);
    }
    forall k | lo <= k < hi
      ensures Agrees(cache[c], bytes, files', k)
    {
      WriteBack(cache, bytes, files, c, lo, hi, c, k);
    }
  }

  /** Byte `o` of `file` is the byte that a cached page of `was` holds for it. */
  ghost predicate FromCache(cache: seq<Entry>, bytes: map<int, Bytes>, was: set<int>, files: Files, file: int, o: int) {
    exists c :: 0 <= c < |cache| && cache[c].page in was && Holds(cache[c], bytes, files, file, o)
  }

  ghost predicate Holds(e: Entry, bytes: map<int, Bytes>, files: Files, file: int, o: int) {
    && e.file == file && e.offset <= o < e.offset + PAGE && e.page in bytes && |bytes[e.page]| == PAGE
    && file in files && 0 <= o < |files[file]| && files[file][o] == bytes[e.page][o - e.offset]
  }

  /** Byte `o` of `file` is as before, or the byte of its cached page in `was`. */
  ghost predicate ByteFromCache(cache: seq<Entry>, bytes: map<int, Bytes>, was: set<int>, files: Files, files': Files,
                                file: int, o: int)
    requires file in files && 0 <= o < |files[file]|
  {
    && file in files' && o < |files'[file]|
    && (files'[file][o] == files[file][o] || FromCache(cache, bytes, was, files', file, o))
  }

  /** A byte that changed is now the byte of its cached page, a page of `was`. */
  ghost predicate OnlyFromCache(cache: seq<Entry>, bytes: map<int, Bytes>, was: set<int>, files: Files, files': Files) {
    && SameShape(files, files')
    && forall file, o :: file in files && 0 <= o < |files[file]| ==>
                           ByteFromCache(cache, bytes, was, files, files', file, o)
  }

  lemma OnlyFromCacheTrans(cache: seq<Entry>, bytes: map<int, Bytes>, was: set<int>, files: Files, files': Files,
                           files'': Files)
    requires OnlyFromCache(cache, bytes, was, files, files') && OnlyFromCache(cache, bytes, was, files', files'')
    ensures OnlyFromCache(cache, bytes, was, files, files'')
  {
    forall file, o | file in files && 0 <= o < |files[file]|
      ensures ByteFromCache(cache, bytes, was, files, files'', file, o)
    {
      assert ByteFromCache(cache, bytes, was, files, files', file, o);
      assert ByteFromCache(cache, bytes, was, files', files'', file, o);
      if files''[file][o] == files'[file][o] && files'[file][o] != files[file][o] {
        var c :| 0 <= c < |cache| && cache[c].page in was && Holds(cache[c], bytes, files', file, o);
        assert Holds(cache[c], bytes, files'', file, o);
      }
    }
  }

  lemma WrittenFromCache(cache: seq<Entry>, bytes: map<int, Bytes>, was: set<int>, files: Files, c: int, lo: int,
                         hi: int)
    requires CacheOk(cache, bytes, files) && 0 <= c < |cache| && cache[c].page in was
    requires 0 <= lo <= hi <= PAGE && cache[c].offset + hi <= |files[cache[c].file]|
    ensures EntryOk(cache[c], bytes, files)
    ensures OnlyFromCache(cache, bytes, was, files, Written(files, cache[c], bytes[cache[c].page], lo, hi))
  {
    var e := cache[c];
    assert EntryOk(e, bytes, files);
    var files' := Written(files, e, bytes[e.page], lo, hi);
    forall file, o | file in files && 0 <= o < |files[file]|
      ensures ByteFromCache(cache, bytes, was, files, files', file, o)
    {
      if file == e.file && e.offset + lo <= o < e.offset + hi {
        assert Holds(cache[c], bytes, files', file, o);
      }
    }
  }

  ghost function InPage(a: int): int {
    a % PAGE
  }

  lemma PageSplit(a: int)
    ensures a == Address(PageOf(a)) + InPage(a) && 0 <= InPage(a) < PAGE
  {
  }

  /** The bytes from `a` to the end of its page. */
  lemma SamePage(a: int, b: int)
    requires a <= b < Address(PageOf(a) + 1)
    ensures PageOf(b) == PageOf(a) && InPage(b) == InPage(a) + b - a
  {
    PageSplit(a);
  }

  /** Byte `a` of the mapping `m` agrees with the file. */
  ghost predicate ByteDone(cache: seq<Entry>, table: seq<int>, bytes: map<int, Bytes>, files: Files, m: FileMapping,
                           a: int)
    requires CacheOk(cache, bytes, files)
  {
    forall c :: BoundAt(cache, table, m, PageOf(a), c) ==> Agrees(cache[c], bytes, files, InPage(a))
  }

  /** The state of a sync that began with the dirty set `was`. */
  ghost predicate Syncing(cache: seq<Entry>, bytes: map<int, Bytes>, files: Files, was: set<int>, dirty: set<int>) {
    CacheOk(cache, bytes, files) && dirty <= was && Cleaned(cache, bytes, files, was, dirty)
  }

  /** The bytes [from, to) of `m` on pages dirty at the start agree with the file. */
  ghost predicate Done(cache: seq<Entry>, table: seq<int>, bytes: map<int, Bytes>, files: Files, was: set<int>,
                       m: FileMapping, from: int, to: int)
    requires CacheOk(cache, bytes, files)
  {
    forall a :: from <= a < to && 0 <= PageOf(a) < |table| && table[PageOf(a)] in was ==>
      ByteDone(cache, table, bytes, files, m, a)
  }

  lemma DoneStays(cache: seq<Entry>, table: seq<int>, bytes: map<int, Bytes>, files: Files, files': Files,
                  was: set<int>, m: FileMapping, from: int, to: int)
    requires CacheOk(cache, bytes, files) && CacheOk(cache, bytes, files') && Keeps(cache, bytes, files, files')
    requires Done(cache, table, bytes, files, was, m, from, to)
    ensures Done(cache, table, bytes, files', was, m, from, to)
  {
    forall a | from <= a < to && 0 <= PageOf(a) < |table| && table[PageOf(a)] in was
      ensures ByteDone(cache, table, bytes, files', m, a)
    {
      assert ByteDone(cache, table, bytes, files, m, a);
    }
  }

  /** A page that is no longer dirty was written in full. */
  lemma CleanPageDone(cache: seq<Entry>, table: seq<int>, bytes: map<int, Bytes>, files: Files, was: set<int>,
                      dirty: set<int>, m: FileMapping, from: int, to: int)
    requires Syncing(cache, bytes, files, was, dirty)
    requires forall a :: from <= a < to ==> PageOf(a) == PageOf(from)
    requires 0 <= PageOf(from) < |table| && table[PageOf(from)] !in dirty
    ensures Done(cache, table, bytes, files, was, m, from, to)
  {
    forall a | from <= a < to && 0 <= PageOf(a) < |table| && table[PageOf(a)] in was
      ensures ByteDone(cache, table, bytes, files, m, a)
    {
      forall c | BoundAt(cache, table, m, PageOf(a), c)
        ensures Agrees(cache[c], bytes, files, InPage(a))
      {
        assert PageAgrees(cache[c], bytes, files);
      }
    }
  }

  /** Writing a whole page lets its dirty bit be cleared. */
  lemma PageCleaned(cache: seq<Entry>, bytes: map<int, Bytes>, files: Files, files': Files, was: set<int>,
                    dirty: set<int>, c: int)
    requires Syncing(cache, bytes, files, was, dirty) && 0 <= c < |cache|
    requires CacheOk(cache, bytes, files') && Keeps(cache, bytes, files, files')
    ensures Syncing(cache, bytes, files', was, dirty)
    ensures (forall k :: 0 <= k < PAGE ==> Agrees(cache[c], bytes, files', k)) ==>
              Syncing(cache, bytes, files', was, dirty - {cache[c].page})
  {
    forall d | 0 <= d < |cache| && cache[d].page in was && cache[d].page !in dirty
      ensures PageAgrees(cache[d], bytes, files')
    {
      assert PageAgrees(cache[d], bytes, files);
      forall k
        ensures Agrees(cache[d], bytes, files', k)
      {
        assert Agrees(cache[d], bytes, files, k);
      }
    }
    if forall k :: 0 <= k < PAGE ==> Agrees(cache[c], bytes, files', k) {
      assert PageAgrees(cache[c], bytes, files') by {
        forall k
          ensures Agrees(cache[c], bytes, files', k)
        {
        }
      }
      forall d | 0 <= d < |cache| && cache[d].page in was && cache[d].page !in dirty - {cache[c].page}
        ensures PageAgrees(cache[d], bytes, files')
      {
        assert d != c ==> cache[d].page != cache[c].page;
      }
    }
  }
}
