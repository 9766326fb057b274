/** Shared file mappings: binding their pages, storing to them, writing them back and unmapping
    them (src/engine/process.c, src/engine/guest_posix.c). */
module FileSync {
  import opened FileMappings
  import opened PageCache

  /** The page table and the file mappings of one process. */
  datatype Space = Space(table: seq<int>, mappings: seq<FileMapping>)

  /** `table` and `mappings` are those of the active process, `others` of the processes that wait;
      the cache and the dirty bits, which belong to pages, are common to all. */
  class Sharing {
    var cache: seq<Entry>
    var bytes: map<int, Bytes>
    var dirty: set<int>
    var files: PageCache.Files
    var table: seq<int>
    var mappings: seq<FileMapping>
    var others: seq<Space>
    var nextPage: nat

    ghost predicate Valid()
      reads this
    {
      && CacheOk(cache, bytes, files)
      && AllProper(mappings) && AllBound(cache, table, mappings) && AllSpaces(cache, others)
      && dirty <= bytes.Keys && forall page :: page in bytes ==> 0 <= page < nextPage
    }

    /** A page without its dirty bit holds what its file holds. */
    ghost predicate Clean()
      reads this
      requires Valid()
    {
      forall c :: 0 <= c < |cache| && cache[c].page !in dirty ==> PageAgrees(cache[c], bytes, files)
    }

    // ---- the cache -----------------------------------------------------------------

    constructor (files: PageCache.Files, pages: nat)
      ensures Valid() && Clean() && this.files == files && |table| == pages && mappings == [] && cache == []
      ensures dirty == {} && others == []
    {
      cache, bytes, dirty, mappings, others, nextPage := [], map[], {}, [], [], 0;
      this.files := files;
      table := seq(pages, _ => -1);
    }

    /** `native_store_shared_file_page`: one page per file page, filled from the file when it
        is made; `grows` says whether a page and a cache slot can be had. */
    method SharedPage(file: int, offset: int, grows: bool) returns (r: int, page: int)
      requires Valid() && file in files && 0 <= offset
      modifies this`cache, this`bytes, this`nextPage
      ensures Valid() && (old(Clean()) ==> Clean()) && old(cache) <= cache
      ensures r == if !Aligned(offset) then EINVAL else if HasPage(old(cache), file, offset) || grows then 0 else ENOMEM
      ensures r == 0 ==> exists c :: IsFor(cache, c, file, offset) && cache[c].page == page
      ensures !grows ==> cache == old(cache)
      ensures Fresh(old(cache), cache, dirty) && NewLoaded(old(cache), cache, bytes, files)
      ensures forall p :: p in old(bytes) ==> p in bytes && bytes[p] == old(bytes[p])
    {
      page := 0;
      if !Aligned(offset) {
        return EINVAL, page;
      }
      var c := 0;
      while c < |cache|
        invariant 0 <= c <= |cache|
        invariant forall d :: 0 <= d < c ==> cache[d].file != file || cache[d].offset != offset
      {
        if cache[c].file == file && cache[c].offset == offset {
          assert IsFor(cache, c, file, offset);
          return 0, cache[c].page;
        }
        c := c + 1;
      }
      if !grows {
        return ENOMEM, page;
      }
      page := NewPage(file, offset);
      assert IsFor(cache, |cache| - 1, file, offset);
      r := 0;
    }

    method NewPage(file: int, offset: int) returns (page: int)
      requires Valid() && file in files && 0 <= offset && Aligned(offset)
      requires forall d :: 0 <= d < |cache| ==> cache[d].file != file || cache[d].offset != offset
      modifies this`cache, this`bytes, this`nextPage
      ensures Valid() && (old(Clean()) ==> Clean())
      ensures cache == old(cache) + [Entry(file, offset, page)] && page !in old(bytes) && page !in dirty
      ensures bytes == old(bytes)[page := Loaded(files[file], offset)]
      ensures NewLoaded(old(cache), cache, bytes, files)
    {
      page := nextPage;
      CacheGrows(cache, bytes, files, dirty, Entry(file, offset, page));
      BoundsGrow(cache, table, mappings, Entry(file, offset, page));
      SpacesGrow(cache, others, Entry(file, offset, page));
      bytes := bytes[page := Loaded(files[file], offset)];
      cache := cache + [Entry(file, offset, page)];
      nextPage := nextPage + 1;
    }

    // ---- mapping and storing -------------------------------------------------------

    /** No recorded mapping reaches the pages [first, first + count). */
    ghost predicate OpenPages(first: int, count: int)
      reads this
    {
      forall i, vp :: 0 <= i < |mappings| && first <= vp < first + count ==> !MeetsPage(mappings[i], vp)
    }

    /** Bind one page of a new shared mapping. */
    method BindPage(vp: int, file: int, offset: int, grows: bool) returns (r: int)
      requires Valid() && file in files && 0 <= offset && 0 <= vp < |table| && OpenPages(vp, 1)
      modifies this`cache, this`bytes, this`nextPage, this`table
      ensures Valid() && (old(Clean()) ==> Clean()) && old(cache) <= cache && (!grows ==> cache == old(cache))
      ensures r == if !Aligned(offset) then EINVAL else if HasPage(old(cache), file, offset) || grows then 0 else ENOMEM
      ensures r == 0 ==> exists c :: IsFor(cache, c, file, offset) && table == old(table)[vp := cache[c].page]
      ensures r != 0 ==> table == old(table)
      ensures Fresh(old(cache), cache, dirty) && NewLoaded(old(cache), cache, bytes, files)
      ensures forall p :: p in old(bytes) ==> p in bytes && bytes[p] == old(bytes[p])
    {
      var page;
      r, page := SharedPage(file, offset, grows);
      if r != 0 {
        return;
      }
      BoundsElsewhere(cache, table, mappings, vp, page);
      table := table[vp := page];
    }

    ghost predicate BoundPages(m: FileMapping, first: int, n: int)
      reads this
    {
      forall vp :: first <= vp < first + n ==> Bound(cache, table, m, vp)
    }

    /** The loop of `guest_posix_mmap` over the pages of a shared mapping. */
    method BindPages(m: FileMapping, first: int, count: int, grows: bool) returns (r: int)
      requires Valid() && m.file in files && 0 <= m.offset && m.address == Address(first)
      requires 0 <= first && 0 <= count && first + count <= |table| && OpenPages(first, count)
      modifies this`cache, this`bytes, this`nextPage, this`table
      ensures Valid() && (old(Clean()) ==> Clean()) && SameElsewhere(old(table), table, first, count)
      ensures Fresh(old(cache), cache, dirty) && NewLoaded(old(cache), cache, bytes, files)
      ensures forall p :: p in old(bytes) ==> p in bytes && bytes[p] == old(bytes[p])
      ensures r == 0 ==> BoundPages(m, first, count)
      ensures r == if count == 0 then 0 else if !Aligned(m.offset) then EINVAL
                   else if HasPages(old(cache), m, count) || grows then 0 else ENOMEM
    {
      var j := 0;
      while j < count
        invariant 0 <= j <= count && (old(Clean()) ==> Valid() && Clean())
        invariant Binding(old(cache), old(bytes), old(table), m, first, count, j, grows)
      {
        r := BindNext(old(cache), old(bytes), old(table), m, first, count, j, grows);
        if r != 0 {
          return;
        }
        j := j + 1;
      }
      r := 0;
    }

    /** The first `j` pages are bound, and nothing else has changed but for new pages. */
    ghost predicate Binding(was: seq<Entry>, bytes0: map<int, Bytes>, table0: seq<int>, m: FileMapping, first: int,
                            count: int, j: int, grows: bool)
      reads this
    {
      && Valid() && SameElsewhere(table0, table, first, count) && BoundPages(m, first, j)
      && Fresh(was, cache, dirty) && NewLoaded(was, cache, bytes, files)
      && (forall p :: p in bytes0 ==> p in bytes && bytes[p] == bytes0[p])
      && (j > 0 ==> Aligned(m.offset)) && (!grows ==> cache == was && HasPages(cache, m, j))
    }

    method BindNext(ghost was: seq<Entry>, ghost bytes0: map<int, Bytes>, ghost table0: seq<int>, m: FileMapping,
                    first: int, ghost count: int, j: int, grows: bool)
      returns (r: int)
      requires Binding(was, bytes0, table0, m, first, count, j, grows) && OpenPages(first, count)
      requires m.file in files && 0 <= m.offset && m.address == Address(first)
      requires 0 <= first && 0 <= j < count && first + count <= |table|
      modifies this`cache, this`bytes, this`nextPage, this`table
      ensures Binding(was, bytes0, table0, m, first, count, if r == 0 then j + 1 else j, grows)
      ensures old(Clean()) ==> Clean()
      ensures r != 0 ==>
                r == if !Aligned(m.offset) then EINVAL else ENOMEM
      ensures r != 0 && Aligned(m.offset) ==> !grows && !HasPage(was, m.file, m.offset + Address(j))
      ensures r == 0 ==> Aligned(m.offset)
    {
      ghost var cache0, bytes1, table1 := cache, bytes, table;
      AddressSum(first, j);
      OffsetAligned(m.offset, j);
      r := BindPage(first + j, m.file, m.offset + Address(j), grows);
      NewLoadedTrans(was, cache0, bytes1, cache, bytes, files);
      if r == 0 {
        BoundNext(cache0, table1, cache, table, m, first, j);
      }
    }

    /** `exec_memory_clear_dirty_pages`. */
    method ClearDirty(first: int, count: int)
      requires 0 <= first && 0 <= count && first + count <= |table|
      modifies this`dirty
      ensures dirty <= old(dirty)
      ensures forall page :: page in dirty <==> page in old(dirty) && page !in table[first..first + count]
    {
      var j := 0;
      while j < count
        invariant 0 <= j <= count && dirty <= old(dirty)
        invariant forall page :: page in dirty <==> page in old(dirty) && page !in table[first..first + j]
      {
        assert table[first..first + j + 1] == table[first..first + j] + [table[first + j]];
        dirty := dirty - {table[first + j]};
        j := j + 1;
      }
    }

    /** The part of `guest_posix_mmap` that makes a shared mapping of `count` pages from page
        `first`: bind them, clear their dirty bits, record the mapping; if that fails, let go of
        the pages. Clearing the bits loses stores that were made through an earlier mapping of
        the same pages, even if the mapping then cannot be recorded: if pages without the bit
        agreed with the file, they do afterwards exactly if every page bound did, and so in
        particular if no page it binds had a store pending. */
    method MapShared(m: FileMapping, first: int, count: int, grows: bool, recorded: bool) returns (r: int)
      requires Valid() && Proper(m) && m.shared && m.file in files && m.address == Address(first)
      requires 0 <= first && 0 < count && first + count <= |table| && OpenPages(first, count)
      requires m.length <= Address(count) < m.length + PAGE
      modifies this`cache, this`bytes, this`nextPage, this`table, this`dirty, this`mappings
      ensures Valid() && r == MapAnswer(old(cache), m, count, grows, recorded) && dirty <= old(dirty)
      ensures old(cache) <= cache && NewLoaded(old(cache), cache, bytes, files)
      ensures SameElsewhere(old(table), table, first, count)
      ensures forall p :: p in old(bytes) ==> p in bytes && bytes[p] == old(bytes[p])
      ensures r == 0 ==> mappings == old(mappings) + [m] && BoundPages(m, first, count)
      ensures r != 0 ==> mappings == old(mappings) && forall vp :: first <= vp < first + count ==> table[vp] == -1
      ensures forall page :: page in dirty <==>
                page in old(dirty) && !(Bindable(old(cache), m, count, grows) && Claims(old(cache), m, count, page))
      ensures old(Clean()) && Bindable(old(cache), m, count, grows) ==>
                (Clean() <==>
                 forall c :: Binds(old(cache), m, count, c) ==> PageAgrees(old(cache)[c], old(bytes), files))
      ensures old(Clean())
              && (!Bindable(old(cache), m, count, grows) || NoneDirty(old(cache), m, count, old(dirty))) ==>
                Clean()
    {
      r := BindPages(m, first, count, grows);
      if r != 0 {
        Withdraw(first, count);
        return;
      }
      ClearDirty(first, count);
      ClaimedPages(old(cache), cache, table, old(dirty), m, first, count);
      if old(Clean()) {
        ClearedClean(old(cache), old(bytes), cache, bytes, files, table, old(dirty), dirty, m, first, count);
      }
      if !recorded {
        Withdraw(first, count);
        return ENOMEM;
      }
      RecordBound(cache, table, mappings, m, first, count);
      mappings := mappings + [m];
    }

    /** Let go of pages that no mapping reaches. */
    method Withdraw(first: int, count: int)
      requires Valid() && 0 <= first && 0 <= count && first + count <= |table| && OpenPages(first, count)
      modifies this`table
      ensures Valid() && SameElsewhere(old(table), table, first, count)
      ensures forall vp :: first <= vp < first + count ==> table[vp] == -1
    {
      UnbindPages(first, count);
      BoundsApart(cache, old(table), table, mappings, first, count);
    }

    /** A guest store to a shared page: `exec_memory_write` does not copy a shared page, and
        marks it dirty. */
    method Put(vp: int, k: int, value: int)
      requires Valid() && 0 <= vp < |table| && table[vp] in bytes && 0 <= k < |bytes[table[vp]]|
      modifies this`bytes, this`dirty
      ensures Valid() && (old(Clean()) ==> Clean())
      ensures bytes == old(bytes)[table[vp] := old(bytes)[table[vp]][k := value]] && dirty == old(dirty) + {table[vp]}
    {
      ghost var before, was := bytes, dirty;
      bytes := bytes[table[vp] := bytes[table[vp]][k := value]];
      dirty := dirty + {table[vp]};
      forall c | 0 <= c < |cache|
        ensures EntryOk(cache[c], bytes, files)
      {
        assert EntryOk(cache[c], before, files);
      }
      forall c | 0 <= c < |cache| && cache[c].page !in dirty
        ensures PageAgrees(cache[c], bytes, files) <==> PageAgrees(cache[c], before, files)
      {
        SameContent(cache[c], before, bytes, files);
      }
    }

    // ---- writing back --------------------------------------------------------------

    /** One round of the inner loop of `guest_posix_sync_file_range`: the bytes from
        `cursor` to the end of its page, of the mapping, or of the range. */
    method SyncChunk(m: FileMapping, cursor: int, end: int, ghost was: set<int>, ghost c: int)
      returns (r: int, next: int)
      requires Syncing(cache, bytes, files, was, dirty)
      requires Proper(m) && m.address <= cursor < end <= m.address + m.length
      requires m.file in files && m.offset + m.length <= |files[m.file]|
      requires BoundAt(cache, table, m, PageOf(cursor), c)
      modifies this`files, this`dirty
      ensures Syncing(cache, bytes, files, was, dirty)
      ensures OnlyFromCache(cache, bytes, was, old(files), files) && Keeps(cache, bytes, old(files), files)
      ensures r == 0 ==> cursor < next <= end && Done(cache, table, bytes, files, was, m, cursor, next)
      ensures r == 0 ==> next <= Address(PageOf(cursor) + 1) && (next == end || Aligned(next))
      ensures r == 0 ==>
                dirty == if Aligned(cursor) && next == cursor + PAGE then old(dirty) - {table[PageOf(cursor)]}
                         else old(dirty)
      ensures r != 0 ==> r == EACCES && !m.writable && table[PageOf(cursor)] in old(dirty)
    {
      var index, inPage := cursor / PAGE, cursor % PAGE;
      var chunk := PAGE - inPage;
      if chunk > end - cursor {
        chunk := end - cursor;
      }
      next := cursor + chunk;
      ChunkPage(cursor, next);
      if table[index] !in dirty {
        CleanPageDone(cache, table, bytes, files, was, dirty, m, cursor, next);
        return 0, next;
      }
      if !m.writable {
        return EACCES, next;
      }
      WriteChunk(m, cursor, chunk, was, c);
      r := 0;
    }

    /** Write a chunk of a dirty page; a whole page is then clean. */
    method WriteChunk(m: FileMapping, cursor: int, chunk: int, ghost was: set<int>, ghost c: int)
      requires Syncing(cache, bytes, files, was, dirty)
      requires Proper(m) && m.address <= cursor && 0 < chunk <= PAGE - cursor % PAGE
      requires cursor + chunk <= m.address + m.length
      requires m.file in files && m.offset + m.length <= |files[m.file]|
      requires BoundAt(cache, table, m, PageOf(cursor), c) && table[PageOf(cursor)] in dirty
      modifies this`files, this`dirty
      ensures Syncing(cache, bytes, files, was, dirty)
      ensures OnlyFromCache(cache, bytes, was, old(files), files) && Keeps(cache, bytes, old(files), files)
      ensures Done(cache, table, bytes, files, was, m, cursor, cursor + chunk)
      ensures dirty == if Aligned(cursor) && chunk == PAGE then old(dirty) - {table[PageOf(cursor)]} else old(dirty)
    {
      var index, inPage := cursor / PAGE, cursor % PAGE;
      ChunkPlace(cache, table, bytes, files, m, cursor, chunk, c);
      ChunkSettled(cache, table, bytes, files, was, dirty, m, cursor, chunk, c, inPage);
      ghost var written := Written(files, cache[c], bytes[cache[c].page], inPage, inPage + chunk);
      WriteFile(m.file, m.offset + cursor - m.address, bytes[table[index]][inPage..inPage + chunk]);
      assert files == written;
      if inPage == 0 && chunk == PAGE {
        dirty := dirty - {table[index]};
      }
    }

    /** The inner loop over one shared mapping. */
    method SyncMapping(i: int, from: int, to: int, ghost was: set<int>) returns (r: int)
      requires Syncing(cache, bytes, files, was, dirty) && AllBound(cache, table, mappings)
      requires 0 <= i < |mappings| && mappings[i].shared && Proper(mappings[i])
      requires mappings[i].address <= from < to <= mappings[i].address + mappings[i].length
      requires mappings[i].file in files && mappings[i].offset + mappings[i].length <= |files[mappings[i].file]|
      modifies this`files, this`dirty
      ensures Syncing(cache, bytes, files, was, dirty)
      ensures OnlyFromCache(cache, bytes, was, old(files), files) && Keeps(cache, bytes, old(files), files)
      ensures r == 0 ==> Done(cache, table, bytes, files, was, mappings[i], from, to)
      ensures r == 0 ==> forall p :: p in dirty <==> p in old(dirty) && !Within(table, from, to, p)
      ensures r != 0 ==>
                && r == EACCES && !mappings[i].writable
                && exists a :: from <= a < to && Bears(table, was, a)
    {
      var cursor := from;
      while cursor < to
        invariant from <= cursor <= to
        invariant Syncing(cache, bytes, files, was, dirty)
        invariant OnlyFromCache(cache, bytes, was, old(files), files) && Keeps(cache, bytes, old(files), files)
        invariant Done(cache, table, bytes, files, was, mappings[i], from, cursor)
        invariant cursor == from || cursor == to || Aligned(cursor)
        invariant forall p :: p in dirty <==> p in old(dirty) && !Within(table, from, cursor, p)
      {
        PageIsMet(mappings[i], cursor);
        ghost var c :| BoundAt(cache, table, mappings[i], PageOf(cursor), c);
        ghost var before := files;
        var next;
        r, next := SyncChunk(mappings[i], cursor, to, was, c);
        if r != 0 {
          assert Bears(table, was, cursor);
          OnlyFromCacheTrans(cache, bytes, was, old(files), before, files);
          return;
        }
        DoneStays(cache, table, bytes, before, files, was, mappings[i], from, cursor);
        OnlyFromCacheTrans(cache, bytes, was, old(files), before, files);
        WithinNext(table, from, cursor, next);
        cursor := next;
      }
      r := 0;
    }

    /** The sync of `guest_posix_msync`, and with `cover` off of `guest_posix_munmap`. */
    method Sync(address: int, length: int, cover: bool) returns (r: int)
      requires Valid() && 0 <= address && 0 <= length
      modifies this`files, this`dirty
      ensures Valid() && OnlyFromCache(cache, bytes, old(dirty), old(files), files) && dirty <= old(dirty)
      ensures old(Clean()) ==> Clean()
      ensures SyncAnswer(mappings, table, files, old(dirty), address, length, cover, r)
      ensures r == 0 ==> Saved(table, mappings, bytes, files, old(dirty), old(Clean()), address, address + length)
      ensures r == 0 ==> Cleansed(table, mappings, old(dirty), dirty, address, address + length)
    {
      if length == 0 || address > U64_MAX - length {
        return EFAULT;
      }
      if cover {
        var covered := Covered(mappings, address, address + length);
        if !covered {
          return ENOMEM;
        }
      }
      ghost var was := dirty;
      r := SyncAll(address, address + length);
      CleanStays(cache, bytes, old(files), files, was, dirty);
      if r == 0 {
        forall i, a | Shares(mappings, i, a) && address <= a < address + length
                      && (Bears(table, was, a) || old(Clean()))
          ensures InFile(table, bytes, files, mappings[i], a)
        {
          SyncedByte(i, a, address, address + length, was, old(Clean()));
        }
      }
    }

    // ---- unmapping -----------------------------------------------------------------

    /** The loop of `exec_memory_unmap_pages` that lets go of pages. */
    method UnbindPages(first: int, count: int)
      requires 0 <= first && 0 <= count && first + count <= |table|
      modifies this`table
      ensures SameElsewhere(old(table), table, first, count)
      ensures forall vp :: first <= vp < first + count ==> table[vp] == -1
    {
      var j := 0;
      while j < count
        invariant 0 <= j <= count && SameElsewhere(old(table), table, first, count)
        invariant forall vp :: first <= vp < first + j ==> table[vp] == -1
      {
        table := table[first + j := -1];
        j := j + 1;
      }
    }

    /** Drop pages and what file mappings say of them. */
    method LetGo(first: int, count: int)
      requires Valid() && 0 <= first && 0 < count && first + count <= |table|
      modifies this`table, this`mappings
      ensures Valid() && (old(Clean()) ==> Clean())
      ensures Unmapped(old(table), old(mappings), table, mappings, first, count)
    {
      UnbindPages(first, count);
      AddressSum(first, count);
      AddressAligned(first + count);
      ReleaseBound(cache, old(table), table, mappings, first, count);
      ReleaseProper(mappings, Address(first), Address(first + count));
      mappings := BuildList(mappings, Address(first), Address(first + count));
    }

    /** The rest of `guest_posix_munmap`, on whole pages. */
    method UnmapPages(first: int, count: int, status: int) returns (r: int)
      requires Valid() && 0 <= first && 0 < count && (status == 0 ==> first + count <= |table|)
      modifies this`files, this`dirty, this`table, this`mappings
      ensures Valid() && (old(Clean()) ==> Clean())
      ensures OnlyFromCache(cache, bytes, old(dirty), old(files), files) && dirty <= old(dirty)
      ensures if Address(first) > U64_MAX - Address(count) then r == EFAULT
              else r == status
                   || Stopped(old(mappings), old(table), files, old(dirty), Address(first),
                              Address(first) + Address(count), r)
      ensures r == 0 ==>
                && Unmapped(old(table), old(mappings), table, mappings, first, count)
                && Saved(old(table), old(mappings), bytes, files, old(dirty), old(Clean()), Address(first),
                         Address(first) + Address(count))
                && Cleansed(old(table), old(mappings), old(dirty), dirty, Address(first),
                            Address(first) + Address(count))
      ensures r != 0 ==> mappings == old(mappings) && table == old(table)
    {
      r := Sync(Address(first), Address(count), false);
      if r != 0 {
        return;
      }
      if status != 0 {
        return status;
      }
      LetGo(first, count);
    }

    /** `guest_posix_munmap`: write back, then let go; `status` is what the capsule answers when
        asked to unmap. What shared mappings held in the range is in the files then, and the
        pages stay in the cache. */
    method Unmap(address: int, length: int, status: int) returns (r: int)
      requires Valid() && (status == 0 ==> PageOf(address) + PagesFor(length) <= |table|)
      modifies this`files, this`dirty, this`table, this`mappings
      ensures Valid() && (old(Clean()) ==> Clean())
      ensures OnlyFromCache(cache, bytes, old(dirty), old(files), files) && dirty <= old(dirty)
      ensures UnmapAnswer(old(mappings), old(table), files, old(dirty), address, length, status, r)
      ensures r == 0 ==>
                && Unmapped(old(table), old(mappings), table, mappings, PageOf(address), PagesFor(length))
                && Saved(old(table), old(mappings), bytes, files, old(dirty), old(Clean()), address,
                         address + Address(PagesFor(length)))
                && Cleansed(old(table), old(mappings), old(dirty), dirty, address, address + Address(PagesFor(length)))
      ensures r == 0 ==> GoneFrom(old(table), table, address, length)
      ensures r == 0 ==>
                forall a, target :: Translates(mappings, a, target) <==>
                  Translates(old(mappings), a, target) && !(address <= Address(PageOf(a)) < address + length)
      ensures r != 0 ==> mappings == old(mappings) && table == old(table)
    {
      if address < 0 || length <= 0 || !Aligned(address) {
        return EINVAL;
      }
      AlignedIs(address);
      PagesForAt(address, length, 0);
      r := UnmapPages(PageOf(address), PagesFor(length), status);
      if r == 0 {
        UnmappedIs(old(table), old(mappings), table, mappings, address, length);
      }
    }

    // ---- processes -----------------------------------------------------------------

    /** A fork: the child refers to the same pages, and has the same file mappings. */
    method Fork()
      requires Valid()
      modifies this`others
      ensures Valid() && (old(Clean()) ==> Clean()) && others == old(others) + [Space(table, mappings)]
    {
      others := others + [Space(table, mappings)];
    }

    /** Another process becomes active. */
    method Switch(i: int)
      requires Valid() && 0 <= i < |others|
      modifies this`others, this`table, this`mappings
      ensures Valid() && (old(Clean()) ==> Clean()) && Space(table, mappings) == old(others)[i]
      ensures others == old(others)[i := Space(old(table), old(mappings))]
    {
      var next := others[i];
      others := others[i := Space(table, mappings)];
      table, mappings := next.table, next.mappings;
    }

    ghost predicate SyncedUpTo(n: int, address: int, end: int, was: set<int>)
      reads this
      requires CacheOk(cache, bytes, files)
    {
      forall j :: 0 <= j < n <= |mappings| && mappings[j].shared && Overlaps(mappings[j], address, end) ==>
                    Reaches(mappings[j], files)
                    && Done(cache, table, bytes, files, was, mappings[j], Lower(mappings[j], address),
                            Upper(mappings[j], end))
    }

    /** The outer loop over the mappings. */
    method SyncAll(address: int, end: int) returns (r: int)
      requires Valid() && 0 <= address < end
      modifies this`files, this`dirty
      ensures Valid() && OnlyFromCache(cache, bytes, old(dirty), old(files), files)
      ensures Syncing(cache, bytes, files, old(dirty), dirty)
      ensures Keeps(cache, bytes, old(files), files)
      ensures r == 0 ==> SyncedUpTo(|mappings|, address, end, old(dirty))
      ensures r == 0 ==> Cleansed(table, mappings, old(dirty), dirty, address, end)
      ensures r == 0 || Stopped(mappings, table, files, old(dirty), address, end, r)
    {
      var i := 0;
      while i < |mappings|
        invariant 0 <= i <= |mappings|
        invariant Syncing(cache, bytes, files, old(dirty), dirty)
        invariant OnlyFromCache(cache, bytes, old(dirty), old(files), files)
        invariant Keeps(cache, bytes, old(files), files)
        invariant SyncedUpTo(i, address, end, old(dirty))
        invariant Cleansed(table, mappings[..i], old(dirty), dirty, address, end)
      {
        var m := mappings[i];
        var from, to := Lower(m, address), Upper(m, end);
        if m.shared && from < to {
          FileIsKnown(cache, table, bytes, files, mappings, i);
          if m.offset > |files[m.file]| || m.length > |files[m.file]| - m.offset {
            assert Blames(mappings, table, files, old(dirty), i, address, end, EIO);
            return EIO;
          }
          ghost var before := files;
          r := SyncMapping(i, from, to, old(dirty));
          OnlyFromCacheTrans(cache, bytes, old(dirty), old(files), before, files);
          if r != 0 {
            assert Blames(mappings, table, files, old(dirty), i, address, end, EACCES);
            return;
          }
          AllDoneStay(cache, table, bytes, before, files, old(dirty), mappings[..i], address, end);
        }
        SettledNext(table, mappings, i, address, end);
        i := i + 1;
      }
      assert mappings[..i] == mappings;
      r := 0;
    }

    lemma SyncedByte(i: int, a: int, address: int, end: int, was: set<int>, clean: bool)
      requires Valid() && Shares(mappings, i, a) && address <= a < end && SyncedUpTo(|mappings|, address, end, was)
      requires Bears(table, was, a) || clean
      requires clean ==> forall c :: 0 <= c < |cache| && cache[c].page !in was ==> PageAgrees(cache[c], bytes, files)
      ensures InFile(table, bytes, files, mappings[i], a)
    {
      var m := mappings[i];
      PageIsMet(m, a);
      PageSplit(a);
      assert Bound(cache, table, m, PageOf(a));
      var c :| BoundAt(cache, table, m, PageOf(a), c);
      assert EntryOk(cache[c], bytes, files);
      assert Overlaps(m, address, end);
      if table[PageOf(a)] in was {
        assert ByteDone(cache, table, bytes, files, m, a);
      }
      assert Agrees(cache[c], bytes, files, InPage(a));
    }

    /** `posix_kernel_file_write_object`, within the file. */
    method WriteFile(file: int, offset: int, content: Bytes)
      requires file in files && 0 <= offset && offset + |content| <= |files[file]|
      modifies this`files
      ensures files == old(files)[file := Splice(old(files)[file], offset, content)]
    {
      files := files[file := Splice(files[file], offset, content)];
    }
  }

  /** Byte `a` of the mapping is in the file. */
  ghost predicate InFile(table: seq<int>, bytes: map<int, Bytes>, files: PageCache.Files, m: FileMapping, a: int) {
    && 0 <= PageOf(a) < |table| && table[PageOf(a)] in bytes && InPage(a) < |bytes[table[PageOf(a)]]|
    && m.file in files && 0 <= m.offset + a - m.address < |files[m.file]|
    && files[m.file][m.offset + a - m.address] == bytes[table[PageOf(a)]][InPage(a)]
  }

  /** Byte `a` belongs to the shared mapping `i`. */
  ghost predicate Shares(ms: seq<FileMapping>, i: int, a: int) {
    0 <= i < |ms| && ms[i].shared && Contains(ms[i], a)
  }

  /** Byte `a` is on a page of `pages`. */
  ghost predicate Bears(table: seq<int>, pages: set<int>, a: int) {
    0 <= PageOf(a) < |table| && table[PageOf(a)] in pages
  }

  /** The bytes of shared mappings from `lo` up to `hi` are in their files: all of them, or at
      least those on pages of `was`. */
  ghost predicate Saved(table: seq<int>, ms: seq<FileMapping>, bytes: map<int, Bytes>, files: PageCache.Files,
                        was: set<int>, all: bool, lo: int, hi: int) {
    forall i, a :: Shares(ms, i, a) && lo <= a < hi && (Bears(table, was, a) || all) ==>
      InFile(table, bytes, files, ms[i], a)
  }

  /** The mapping a sync stopped at: it is longer than its file, or not writable and has a byte in
      the range on a page of `was`, the pages that were dirty. */
  ghost predicate Blames(ms: seq<FileMapping>, table: seq<int>, files: PageCache.Files, was: set<int>, i: int,
                         address: int, end: int, r: int) {
    && 0 <= i < |ms| && ms[i].shared && Overlaps(ms[i], address, end)
    && (|| (r == EIO && !Reaches(ms[i], files))
        || (r == EACCES && !ms[i].writable
            && exists a :: Lower(ms[i], address) <= a < Upper(ms[i], end) && Bears(table, was, a)))
  }

  ghost predicate Stopped(ms: seq<FileMapping>, table: seq<int>, files: PageCache.Files, was: set<int>, address: int,
                          end: int, r: int) {
    exists i :: Blames(ms, table, files, was, i, address, end, r)
  }

  /** What a sync answers. */
  ghost predicate SyncAnswer(ms: seq<FileMapping>, table: seq<int>, files: PageCache.Files, was: set<int>, address: int,
                             length: int, cover: bool, r: int) {
    if length == 0 || address > U64_MAX - length then r == EFAULT
    else if cover && exists a :: address <= a < address + length && !FileMapped(ms, a) then r == ENOMEM
    else r == 0 || Stopped(ms, table, files, was, address, address + length, r)
  }

  /** What an unmap answers: what the write-back does, unless that is 0, and else the capsule. */
  ghost predicate UnmapAnswer(ms: seq<FileMapping>, table: seq<int>, files: PageCache.Files, was: set<int>,
                              address: int, length: int, status: int, r: int) {
    var whole := Address(PagesFor(length));
    if address < 0 || length <= 0 || !Aligned(address) then r == EINVAL
    else if address > U64_MAX - whole then r == EFAULT
    else r == status || Stopped(ms, table, files, was, address, address + whole, r)
  }

  /** The pages [first, first + count) are gone, and the mappings lost what they had there. */
  ghost predicate Unmapped(table: seq<int>, ms: seq<FileMapping>, table': seq<int>, ms': seq<FileMapping>, first: int,
                           count: int) {
    && ms' == Release(ms, Address(first), Address(first + count)) && SameElsewhere(table, table', first, count)
    && forall vp :: first <= vp < first + count && 0 <= vp < |table'| ==> table'[vp] == -1
  }

  /** In addresses: the pages that begin in the range are gone and no others, and so are their
      translations. */
  lemma UnmappedIs(table: seq<int>, ms: seq<FileMapping>, table': seq<int>, ms': seq<FileMapping>, address: int,
                   length: int)
    requires Aligned(address) && 0 < length && 0 <= address && AllProper(ms)
    requires Unmapped(table, ms, table', ms', PageOf(address), PagesFor(length))
    ensures GoneFrom(table, table', address, length)
    ensures forall a, target :: Translates(ms', a, target) <==>
              Translates(ms, a, target) && !(address <= Address(PageOf(a)) < address + length)
  {
    var first, count := PageOf(address), PagesFor(length);
    PagesForAt(address, length, 0);
    forall vp | 0 <= vp < |table|
      ensures table'[vp] == if address <= Address(vp) < address + length then -1 else table[vp]
    {
      PagesForAt(address, length, vp);
    }
    AddressSum(first, count);
    forall a, target
      ensures Translates(ms', a, target) <==>
              Translates(ms, a, target) && !(address <= Address(PageOf(a)) < address + length)
    {
      ReleaseTranslates(ms, Address(first), Address(first + count), a, target);
      PagesForAt(address, length, PageOf(a));
      PageOfRange(a, first, count);
    }
  }

  ghost predicate GoneFrom(table: seq<int>, table': seq<int>, address: int, length: int) {
    && |table'| == |table|
    && forall vp :: 0 <= vp < |table| ==>
         table'[vp] == if address <= Address(vp) < address + length then -1 else table[vp]
  }

  ghost predicate AllSpaces(cache: seq<Entry>, spaces: seq<Space>) {
    forall i :: 0 <= i < |spaces| ==>
                  AllProper(spaces[i].mappings) && AllBound(cache, spaces[i].table, spaces[i].mappings)
  }

  lemma SpacesGrow(cache: seq<Entry>, spaces: seq<Space>, e: Entry)
    requires AllSpaces(cache, spaces)
    ensures AllSpaces(cache + [e], spaces)
  {
    forall i | 0 <= i < |spaces|
      ensures AllBound(cache + [e], spaces[i].table, spaces[i].mappings)
    {
      BoundsGrow(cache, spaces[i].table, spaces[i].mappings, e);
    }
  }

  /** What is left of a mapping outside some pages is bound as it was. */
  lemma PartsBound(cache: seq<Entry>, table: seq<int>, table': seq<int>, m: FileMapping, first: int, count: int)
    requires m.shared ==> forall vp :: MeetsPage(m, vp) ==> Bound(cache, table, m, vp)
    requires SameElsewhere(table, table', first, count) && 0 < count
    ensures AllBound(cache, table', Parts(m, Address(first), Address(first + count)))
  {
    var parts := Parts(m, Address(first), Address(first + count));
    forall i, vp | 0 <= i < |parts| && parts[i].shared && MeetsPage(parts[i], vp)
      ensures Bound(cache, table', parts[i], vp)
    {
      assert MeetsPage(m, vp) && !(first <= vp < first + count);
      var c :| BoundAt(cache, table, m, vp, c);
      assert BoundAt(cache, table', parts[i], vp, c);
    }
  }

  lemma {:induction false} ReleaseBound(cache: seq<Entry>, table: seq<int>, table': seq<int>, ms: seq<FileMapping>,
                                        first: int, count: int)
    requires AllBound(cache, table, ms) && SameElsewhere(table, table', first, count) && 0 < count
    ensures AllBound(cache, table', Release(ms, Address(first), Address(first + count)))
  {
    if ms != [] {
      var front, last := ms[..|ms| - 1], ms[|ms| - 1];
      ReleaseBound(cache, table, table', front, first, count);
      PartsBound(cache, table, table', last, first, count);
    }
  }

  lemma PartsOpen(m: FileMapping, first: int, count: int, vp: int, i: int)
    requires Proper(m) && first <= vp < first + count
    requires 0 <= i < |Parts(m, Address(first), Address(first + count))|
    ensures !MeetsPage(Parts(m, Address(first), Address(first + count))[i], vp)
  {
  }

  /** After an unmap no mapping reaches the pages, so they can be mapped again. */
  lemma {:induction false} ReleaseOpens(ms: seq<FileMapping>, first: int, count: int, vp: int, i: int)
    requires AllProper(ms) && first <= vp < first + count
    requires 0 <= i < |Release(ms, Address(first), Address(first + count))|
    ensures !MeetsPage(Release(ms, Address(first), Address(first + count))[i], vp)
  {
    var front, last := ms[..|ms| - 1], ms[|ms| - 1];
    var kept := |Release(front, Address(first), Address(first + count))|;
    if i < kept {
      ReleaseOpens(front, first, count, vp, i);
    } else {
      assert Proper(last);
      PartsOpen(last, first, count, vp, i - kept);
    }
  }

  /** A chunk does not leave its page. */
  lemma ChunkPage(cursor: int, next: int)
    requires cursor <= next <= cursor - cursor % PAGE + PAGE
    ensures forall a :: cursor <= a < next ==> PageOf(a) == PageOf(cursor)
  {
    forall a | cursor <= a < next
      ensures PageOf(a) == PageOf(cursor)
    {
      SamePage(cursor, a);
    }
  }

  /** Where a chunk goes in the file: to the place of its page. */
  lemma ChunkPlace(cache: seq<Entry>, table: seq<int>, bytes: map<int, Bytes>, files: PageCache.Files, m: FileMapping,
                   cursor: int, chunk: int, c: int)
    requires CacheOk(cache, bytes, files) && BoundAt(cache, table, m, PageOf(cursor), c)
    requires cursor + chunk <= m.address + m.length && m.file in files && m.offset + m.length <= |files[m.file]|
    ensures EntryOk(cache[c], bytes, files) && cache[c].page == table[PageOf(cursor)] && cache[c].file == m.file
    ensures m.offset + cursor - m.address == cache[c].offset + InPage(cursor)
    ensures cache[c].offset + InPage(cursor) + chunk <= |files[m.file]|
  {
    PageSplit(cursor);
    assert EntryOk(cache[c], bytes, files);
  }

  /** What writing a chunk of a dirty page achieves. */
  lemma ChunkSettled(cache: seq<Entry>, table: seq<int>, bytes: map<int, Bytes>, files: PageCache.Files, was: set<int>,
                     dirty: set<int>, m: FileMapping, cursor: int, chunk: int, c: int, inPage: int)
    requires Syncing(cache, bytes, files, was, dirty) && BoundAt(cache, table, m, PageOf(cursor), c)
    requires cache[c].page in dirty && inPage == InPage(cursor) && 0 <= inPage < inPage + chunk <= PAGE
    requires EntryOk(cache[c], bytes, files) && cache[c].offset + inPage + chunk <= |files[cache[c].file]|
    ensures var files' := Written(files, cache[c], bytes[cache[c].page], inPage, inPage + chunk);
            && Syncing(cache, bytes, files', was, dirty) && Keeps(cache, bytes, files, files')
            && OnlyFromCache(cache, bytes, was, files, files')
            && Done(cache, table, bytes, files', was, m, cursor, cursor + chunk)
            && (inPage == 0 && chunk == PAGE ==> Syncing(cache, bytes, files', was, dirty - {cache[c].page}))
  {
    var files' := Written(files, cache[c], bytes[cache[c].page], inPage, inPage + chunk);
    ChunkWritten(cache, bytes, files, c, inPage, inPage + chunk);
    assert OnlyFromCache(cache, bytes, was, files, files') by {
      WrittenFromCache(cache, bytes, was, files, c, inPage, inPage + chunk);
    }
    assert Done(cache, table, bytes, files', was, m, cursor, cursor + chunk) by {
      ChunkDone(cache, table, bytes, files', was, m, cursor, cursor + chunk, c);
    }
    PageCleaned(cache, bytes, files, files', was, dirty, c);
  }

  lemma ChunkDone(cache: seq<Entry>, table: seq<int>, bytes: map<int, Bytes>, files: PageCache.Files, was: set<int>,
                  m: FileMapping, cursor: int, next: int, c: int)
    requires CacheOk(cache, bytes, files) && BoundAt(cache, table, m, PageOf(cursor), c)
    requires cursor <= next <= cursor - cursor % PAGE + PAGE
    requires forall k :: InPage(cursor) <= k < InPage(cursor) + next - cursor ==> Agrees(cache[c], bytes, files, k)
    ensures Done(cache, table, bytes, files, was, m, cursor, next)
  {
    forall a | cursor <= a < next
      ensures ByteDone(cache, table, bytes, files, m, a)
    {
      SamePage(cursor, a);
      forall d | BoundAt(cache, table, m, PageOf(a), d)
        ensures Agrees(cache[d], bytes, files, InPage(a))
      {
        assert d == c;
      }
    }
  }

  lemma PageIsMet(m: FileMapping, a: int)
    requires m.address <= a < m.address + m.length
    ensures MeetsPage(m, PageOf(a))
  {
    PageSplit(a);
  }

  function Lower(m: FileMapping, address: int): int {
    if m.address > address then m.address else address
  }

  function Upper(m: FileMapping, end: int): int {
    if m.address + m.length < end then m.address + m.length else end
  }

  /** Page `p` is at a virtual page that lies whole within [lo, hi). */
  ghost predicate Within(table: seq<int>, lo: int, hi: int, p: int) {
    exists vp :: WholeAt(table, lo, hi, p, vp)
  }

  ghost predicate WholeAt(table: seq<int>, lo: int, hi: int, p: int, vp: int) {
    0 <= vp < |table| && table[vp] == p && lo <= Address(vp) && Address(vp) + PAGE <= hi
  }

  /** A shared mapping has page `p` whole, all of it in the range. */
  ghost predicate Settled(table: seq<int>, ms: seq<FileMapping>, address: int, end: int, p: int) {
    exists j, vp :: SettledAt(table, ms, j, address, end, p, vp)
  }

  ghost predicate SettledAt(table: seq<int>, ms: seq<FileMapping>, j: int, address: int, end: int, p: int, vp: int) {
    && 0 <= j < |ms| && ms[j].shared && WholeAt(table, address, end, p, vp)
    && WholeAt(table, ms[j].address, ms[j].address + ms[j].length, p, vp)
  }

  /** The pages that lost their dirty bits are those a mapping has whole in the range. */
  ghost predicate Cleansed(table: seq<int>, ms: seq<FileMapping>, was: set<int>, dirty: set<int>, address: int,
                           end: int) {
    forall p :: p in dirty <==> p in was && !Settled(table, ms, address, end, p)
  }

  lemma WithinNext(table: seq<int>, from: int, cursor: int, next: int)
    requires from <= cursor < next <= Address(PageOf(cursor) + 1) && (cursor == from || Aligned(cursor))
    requires 0 <= PageOf(cursor) < |table|
    ensures forall p :: Within(table, from, next, p) <==>
              Within(table, from, cursor, p)
              || (Aligned(cursor) && next == cursor + PAGE && table[PageOf(cursor)] == p)
  {
    forall p
      ensures Within(table, from, next, p) <==>
              Within(table, from, cursor, p)
              || (Aligned(cursor) && next == cursor + PAGE && table[PageOf(cursor)] == p)
    {
      if vp :| WholeAt(table, from, cursor, p, vp) {
        assert WholeAt(table, from, next, p, vp);
      }
      if Aligned(cursor) && next == cursor + PAGE && table[PageOf(cursor)] == p {
        assert WholeAt(table, from, next, p, PageOf(cursor));
      }
      if vp :| WholeAt(table, from, next, p, vp) {
        if Address(vp) + PAGE <= cursor {
          assert WholeAt(table, from, cursor, p, vp);
        } else {
          assert vp == PageOf(cursor);
        }
      }
    }
  }

  lemma SettledNext(table: seq<int>, ms: seq<FileMapping>, i: nat, address: int, end: int)
    requires i < |ms|
    ensures forall p :: Settled(table, ms[..i + 1], address, end, p) <==>
              Settled(table, ms[..i], address, end, p)
              || (ms[i].shared && Within(table, Lower(ms[i], address), Upper(ms[i], end), p))
  {
    var less, more := ms[..i], ms[..i + 1];
    forall p
      ensures Settled(table, ms[..i + 1], address, end, p) <==>
              Settled(table, ms[..i], address, end, p)
              || (ms[i].shared && Within(table, Lower(ms[i], address), Upper(ms[i], end), p))
    {
      if j, vp :| SettledAt(table, less, j, address, end, p, vp) {
        assert SettledAt(table, more, j, address, end, p, vp);
      }
      if vp :| ms[i].shared && WholeAt(table, Lower(ms[i], address), Upper(ms[i], end), p, vp) {
        assert SettledAt(table, more, i, address, end, p, vp);
      }
      if j, vp :| SettledAt(table, more, j, address, end, p, vp) {
        if j < i {
          assert SettledAt(table, less, j, address, end, p, vp);
        } else {
          assert WholeAt(table, Lower(ms[i], address), Upper(ms[i], end), p, vp);
        }
      }
    }
  }

  ghost predicate Overlaps(m: FileMapping, address: int, end: int) {
    Lower(m, address) < Upper(m, end)
  }

  ghost predicate Reaches(m: FileMapping, files: PageCache.Files) {
    m.file in files && m.offset + m.length <= |files[m.file]|
  }

  lemma FileIsKnown(cache: seq<Entry>, table: seq<int>, bytes: map<int, Bytes>, files: PageCache.Files,
                    ms: seq<FileMapping>, i: int)
    requires CacheOk(cache, bytes, files) && AllBound(cache, table, ms) && 0 <= i < |ms| && ms[i].shared
    requires Proper(ms[i])
    ensures ms[i].file in files
  {
    PageIsMet(ms[i], ms[i].address);
    assert Bound(cache, table, ms[i], PageOf(ms[i].address));
    var c :| BoundAt(cache, table, ms[i], PageOf(ms[i].address), c);
    assert EntryOk(cache[c], bytes, files);
  }

  lemma AllDoneStay(cache: seq<Entry>, table: seq<int>, bytes: map<int, Bytes>, files: PageCache.Files,
                    files': PageCache.Files, was: set<int>, ms: seq<FileMapping>, address: int, end: int)
    requires CacheOk(cache, bytes, files) && CacheOk(cache, bytes, files') && Keeps(cache, bytes, files, files')
    requires SameShape(files, files')
    requires forall j :: 0 <= j < |ms| && ms[j].shared && Overlaps(ms[j], address, end) ==>
                           Reaches(ms[j], files)
                           && Done(cache, table, bytes, files, was, ms[j], Lower(ms[j], address), Upper(ms[j], end))
    ensures forall j :: 0 <= j < |ms| && ms[j].shared && Overlaps(ms[j], address, end) ==>
                          Reaches(ms[j], files')
                          && Done(cache, table, bytes, files', was, ms[j], Lower(ms[j], address), Upper(ms[j], end))
  {
    forall j | 0 <= j < |ms| && ms[j].shared && Overlaps(ms[j], address, end)
      ensures Done(cache, table, bytes, files', was, ms[j], Lower(ms[j], address), Upper(ms[j], end))
    {
      DoneStays(cache, table, bytes, files, files', was, ms[j], Lower(ms[j], address), Upper(ms[j], end));
    }
  }

  /** If pages without the dirty bit agreed before, they do after. */
  lemma CleanStays(cache: seq<Entry>, bytes: map<int, Bytes>, files: PageCache.Files, files': PageCache.Files,
                   was: set<int>, dirty: set<int>)
    requires CacheOk(cache, bytes, files) && Syncing(cache, bytes, files', was, dirty)
    requires Keeps(cache, bytes, files, files')
    ensures (forall c :: 0 <= c < |cache| && cache[c].page !in was ==> PageAgrees(cache[c], bytes, files)) ==>
              forall c :: 0 <= c < |cache| && cache[c].page !in dirty ==> PageAgrees(cache[c], bytes, files')
  {
    if forall c :: 0 <= c < |cache| && cache[c].page !in was ==> PageAgrees(cache[c], bytes, files) {
      forall c | 0 <= c < |cache| && cache[c].page !in dirty
        ensures PageAgrees(cache[c], bytes, files')
      {
        if cache[c].page !in was {
          forall k
            ensures Agrees(cache[c], bytes, files', k)
          {
            assert Agrees(cache[c], bytes, files, k);
          }
        }
      }
    }
  }

  // ---- growing the cache -----------------------------------------------------------

  ghost predicate HasPage(cache: seq<Entry>, file: int, offset: int) {
    exists c :: IsFor(cache, c, file, offset)
  }

  /** Every page of the file that `m` maps is in the cache. */
  ghost predicate HasPages(cache: seq<Entry>, m: FileMapping, count: int) {
    forall j :: 0 <= j < count ==> HasPage(cache, m.file, m.offset + Address(j))
  }

  ghost predicate SameElsewhere(was: seq<int>, table: seq<int>, first: int, count: int) {
    |table| == |was| && forall vp :: 0 <= vp < |was| && !(first <= vp < first + count) ==> table[vp] == was[vp]
  }

  lemma OffsetAligned(offset: int, j: int)
    ensures Aligned(offset + Address(j)) <==> Aligned(offset)
  {
    AddressAligned(j);
  }

  ghost predicate IsFor(cache: seq<Entry>, c: int, file: int, offset: int) {
    0 <= c < |cache| && cache[c].file == file && cache[c].offset == offset
  }

  /** A page filled from the file and padded with zeros. */
  function Loaded(content: Bytes, offset: int): Bytes
    requires 0 <= offset
  {
    seq(PAGE, k requires 0 <= k < PAGE => if offset + k < |content| then content[offset + k] else 0)
  }

  lemma CacheGrows(cache: seq<Entry>, bytes: map<int, Bytes>, files: PageCache.Files, dirty: set<int>, e: Entry)
    requires CacheOk(cache, bytes, files) && e.file in files && 0 <= e.offset && Aligned(e.offset) && e.page !in bytes
    requires forall c :: !IsFor(cache, c, e.file, e.offset)
    ensures var bytes' := bytes[e.page := Loaded(files[e.file], e.offset)];
            && CacheOk(cache + [e], bytes', files) && PageAgrees(e, bytes', files)
            && ((forall c :: 0 <= c < |cache| && cache[c].page !in dirty ==> PageAgrees(cache[c], bytes, files)) ==>
                forall c :: 0 <= c < |cache + [e]| && (cache + [e])[c].page !in dirty ==>
                  PageAgrees((cache + [e])[c], bytes', files))
  {
    var cache', bytes' := cache + [e], bytes[e.page := Loaded(files[e.file], e.offset)];
    forall c | 0 <= c < |cache|
      ensures cache'[c] == cache[c] && EntryOk(cache[c], bytes', files)
      ensures PageAgrees(cache[c], bytes, files) ==> PageAgrees(cache[c], bytes', files)
    {
      assert EntryOk(cache[c], bytes, files);
      if PageAgrees(cache[c], bytes, files) {
        forall k
          ensures Agrees(cache[c], bytes', files, k)
        {
          assert Agrees(cache[c], bytes, files, k);
        }
      }
    }
    forall i, j | 0 <= i < j < |cache'|
      ensures cache'[i].page != cache'[j].page
      ensures cache'[i].file != cache'[j].file || cache'[i].offset != cache'[j].offset
    {
      assert j == |cache| ==> !IsFor(cache, i, e.file, e.offset) && EntryOk(cache[i], bytes, files);
    }
    assert EntryOk(e, bytes', files);
  }

  lemma BoundsGrow(cache: seq<Entry>, table: seq<int>, ms: seq<FileMapping>, e: Entry)
    requires AllBound(cache, table, ms)
    ensures AllBound(cache + [e], table, ms)
  {
    forall i, vp | 0 <= i < |ms| && ms[i].shared && MeetsPage(ms[i], vp)
      ensures Bound(cache + [e], table, ms[i], vp)
    {
      assert Bound(cache, table, ms[i], vp);
      var c :| BoundAt(cache, table, ms[i], vp, c);
      assert BoundAt(cache + [e], table, ms[i], vp, c);
    }
  }

  /** The entries added since `was` are not dirty. */
  ghost predicate Fresh(was: seq<Entry>, cache: seq<Entry>, dirty: set<int>) {
    was <= cache && forall c :: |was| <= c < |cache| ==> cache[c].page !in dirty
  }

  lemma BoundsElsewhere(cache: seq<Entry>, table: seq<int>, ms: seq<FileMapping>, vp: int, page: int)
    requires AllBound(cache, table, ms) && 0 <= vp < |table|
    requires forall i :: 0 <= i < |ms| ==> !MeetsPage(ms[i], vp)
    ensures AllBound(cache, table[vp := page], ms)
  {
    forall i, v | 0 <= i < |ms| && ms[i].shared && MeetsPage(ms[i], v)
      ensures Bound(cache, table[vp := page], ms[i], v)
    {
      assert Bound(cache, table, ms[i], v);
      var c :| BoundAt(cache, table, ms[i], v, c);
      assert BoundAt(cache, table[vp := page], ms[i], v, c);
    }
  }

  lemma BoundsApart(cache: seq<Entry>, table: seq<int>, table': seq<int>, ms: seq<FileMapping>, first: int, count: int)
    requires AllBound(cache, table, ms) && SameElsewhere(table, table', first, count)
    requires forall i, vp :: 0 <= i < |ms| && first <= vp < first + count ==> !MeetsPage(ms[i], vp)
    ensures AllBound(cache, table', ms)
  {
    forall i, v | 0 <= i < |ms| && ms[i].shared && MeetsPage(ms[i], v)
      ensures Bound(cache, table', ms[i], v)
    {
      assert Bound(cache, table, ms[i], v);
      var c :| BoundAt(cache, table, ms[i], v, c);
      assert BoundAt(cache, table', ms[i], v, c);
    }
  }

  /** Binding page `first + j` leaves the pages before it bound. */
  lemma BoundNext(cache: seq<Entry>, table: seq<int>, cache': seq<Entry>, table': seq<int>, m: FileMapping, first: int,
                  j: int)
    requires cache <= cache' && 0 <= first && 0 <= j && first + j < |table| && m.address == Address(first)
    requires forall vp :: first <= vp < first + j ==> Bound(cache, table, m, vp)
    requires exists c :: IsFor(cache', c, m.file, m.offset + Address(j)) && table' == table[first + j := cache'[c].page]
    ensures forall vp :: first <= vp < first + j + 1 ==> Bound(cache', table', m, vp)
  {
    AddressSum(first, j);
    forall vp | first <= vp < first + j + 1
      ensures Bound(cache', table', m, vp)
    {
      if vp < first + j {
        assert Bound(cache, table, m, vp);
        var c :| BoundAt(cache, table, m, vp, c);
        assert BoundAt(cache', table', m, vp, c);
      } else {
        var c :| IsFor(cache', c, m.file, m.offset + Address(j)) && table' == table[first + j := cache'[c].page];
        assert BoundAt(cache', table', m, vp, c);
      }
    }
  }

  lemma RecordBound(cache: seq<Entry>, table: seq<int>, ms: seq<FileMapping>, m: FileMapping, first: int, count: int)
    requires AllBound(cache, table, ms) && m.address == Address(first) && m.length <= Address(count)
    requires forall vp :: first <= vp < first + count ==> Bound(cache, table, m, vp)
    ensures AllBound(cache, table, ms + [m])
  {
    forall i, vp | 0 <= i < |ms + [m]| && (ms + [m])[i].shared && MeetsPage((ms + [m])[i], vp)
      ensures Bound(cache, table, (ms + [m])[i], vp)
    {
      if i == |ms| {
        AddressSum(first, count);
      }
    }
  }

  /** Entry `c` caches a page of the file that `m` maps. */
  ghost predicate Binds(cache: seq<Entry>, m: FileMapping, count: int, c: int) {
    exists j :: 0 <= j < count && IsFor(cache, c, m.file, m.offset + Address(j))
  }

  /** `page` caches a page of the file that `m` maps. */
  ghost predicate Claims(cache: seq<Entry>, m: FileMapping, count: int, page: int) {
    exists c :: Binds(cache, m, count, c) && cache[c].page == page
  }

  /** Every page of `m` can be had. */
  ghost predicate Bindable(cache: seq<Entry>, m: FileMapping, count: int, grows: bool) {
    Aligned(m.offset) && (HasPages(cache, m, count) || grows)
  }

  ghost function MapAnswer(cache: seq<Entry>, m: FileMapping, count: int, grows: bool, recorded: bool): int {
    if !Aligned(m.offset) then EINVAL else if Bindable(cache, m, count, grows) && recorded then 0 else ENOMEM
  }

  /** The dirty pages that a mapping binds are those that cached its pages of the file. */
  lemma ClaimedPages(cache0: seq<Entry>, cache: seq<Entry>, table: seq<int>, was: set<int>, m: FileMapping,
                     first: int, count: int)
    requires Keyed(cache) && Fresh(cache0, cache, was) && m.address == Address(first)
    requires 0 <= first && 0 <= count && first + count <= |table|
    requires forall vp :: first <= vp < first + count ==> Bound(cache, table, m, vp)
    ensures forall page :: page in was ==>
              (page in table[first..first + count] <==> Claims(cache0, m, count, page))
  {
    forall page | page in was
      ensures page in table[first..first + count] <==> Claims(cache0, m, count, page)
    {
      if page in table[first..first + count] {
        var j :| 0 <= j < count && table[first..first + count][j] == page;
        var vp := first + j;
        AddressSum(first, j);
        assert Bound(cache, table, m, vp);
        var c :| BoundAt(cache, table, m, vp, c);
        assert c < |cache0|;
        assert IsFor(cache0, c, m.file, m.offset + Address(j)) && cache0[c] == cache[c];
        assert Binds(cache0, m, count, c);
      }
      if Claims(cache0, m, count, page) {
        var c :| Binds(cache0, m, count, c) && cache0[c].page == page;
        var j :| 0 <= j < count && IsFor(cache0, c, m.file, m.offset + Address(j));
        SameEntry(cache, table, m, first, j, c);
        assert table[first..first + count][j] == table[first + j];
      }
    }
  }

  /** None of the pages that `m` binds has a store pending. */
  ghost predicate NoneDirty(cache: seq<Entry>, m: FileMapping, count: int, dirty: set<int>) {
    forall c :: Binds(cache, m, count, c) ==> cache[c].page !in dirty
  }

  /** The entries added since `was` hold what the file holds, and zeros after its end. */
  ghost predicate NewLoaded(was: seq<Entry>, cache: seq<Entry>, bytes: map<int, Bytes>, files: PageCache.Files) {
    forall c :: |was| <= c < |cache| ==>
      EntryOk(cache[c], bytes, files) && bytes[cache[c].page] == Loaded(files[cache[c].file], cache[c].offset)
  }

  lemma NewLoadedTrans(was: seq<Entry>, cache: seq<Entry>, bytes: map<int, Bytes>, cache': seq<Entry>,
                       bytes': map<int, Bytes>, files: PageCache.Files)
    requires NewLoaded(was, cache, bytes, files) && cache <= cache' && NewLoaded(cache, cache', bytes', files)
    requires CacheOk(cache', bytes', files) && forall p :: p in bytes ==> p in bytes' && bytes'[p] == bytes[p]
    ensures NewLoaded(was, cache', bytes', files)
  {
    forall c | |was| <= c < |cache'|
      ensures EntryOk(cache'[c], bytes', files)
      ensures bytes'[cache'[c].page] == Loaded(files[cache'[c].file], cache'[c].offset)
    {
      assert EntryOk(cache'[c], bytes', files);
      assert c < |cache| ==> EntryOk(cache[c], bytes, files);
    }
  }

  ghost predicate CleanIn(cache: seq<Entry>, bytes: map<int, Bytes>, files: PageCache.Files, dirty: set<int>)
    requires CacheOk(cache, bytes, files)
  {
    forall c :: 0 <= c < |cache| && cache[c].page !in dirty ==> PageAgrees(cache[c], bytes, files)
  }

  lemma SameEntry(cache: seq<Entry>, table: seq<int>, m: FileMapping, first: int, j: int, c: int)
    requires Keyed(cache) && m.address == Address(first) && Bound(cache, table, m, first + j) && 0 <= c < |cache|
    ensures IsFor(cache, c, m.file, m.offset + Address(j)) <==> cache[c].page == table[first + j]
  {
    AddressSum(first, j);
    var d :| BoundAt(cache, table, m, first + j, d);
  }

  lemma SameContent(e: Entry, bytes0: map<int, Bytes>, bytes: map<int, Bytes>, files: PageCache.Files)
    requires EntryOk(e, bytes0, files) && EntryOk(e, bytes, files) && bytes[e.page] == bytes0[e.page]
    ensures PageAgrees(e, bytes, files) <==> PageAgrees(e, bytes0, files)
  {
    forall k
      ensures Agrees(e, bytes, files, k) <==> Agrees(e, bytes0, files, k)
    {
    }
  }

  lemma ClearedClean(cache0: seq<Entry>, bytes0: map<int, Bytes>, cache: seq<Entry>, bytes: map<int, Bytes>,
                     files: PageCache.Files, table: seq<int>, was: set<int>, dirty: set<int>, m: FileMapping,
                     first: int, count: int)
    requires CacheOk(cache0, bytes0, files) && CacheOk(cache, bytes, files) && Fresh(cache0, cache, was)
    requires CleanIn(cache, bytes, files, was)
    requires forall p :: p in bytes0 ==> p in bytes && bytes[p] == bytes0[p]
    requires m.address == Address(first) && 0 <= first && 0 <= count && first + count <= |table|
    requires forall vp :: first <= vp < first + count ==> Bound(cache, table, m, vp)
    requires forall page :: page in dirty <==> page in was && page !in table[first..first + count]
    ensures CleanIn(cache, bytes, files, dirty) <==>
            forall c :: Binds(cache0, m, count, c) ==> PageAgrees(cache0[c], bytes0, files)
  {
    if CleanIn(cache, bytes, files, dirty) {
      forall c | Binds(cache0, m, count, c)
        ensures PageAgrees(cache0[c], bytes0, files)
      {
        var j :| 0 <= j < count && IsFor(cache0, c, m.file, m.offset + Address(j));
        assert cache[c] == cache0[c];
        SameEntry(cache, table, m, first, j, c);
        assert table[first..first + count][j] == table[first + j];
        SameContent(cache[c], bytes0, bytes, files);
      }
    }
    if forall c :: Binds(cache0, m, count, c) ==> PageAgrees(cache0[c], bytes0, files) {
      forall c | 0 <= c < |cache| && cache[c].page !in dirty
        ensures PageAgrees(cache[c], bytes, files)
      {
        if cache[c].page in was {
          var j :| 0 <= j < count && table[first..first + count][j] == cache[c].page;
          SameEntry(cache, table, m, first, j, c);
          assert IsFor(cache0, c, m.file, m.offset + Address(j)) && cache0[c] == cache[c];
          assert Binds(cache0, m, count, c);
          SameContent(cache[c], bytes0, bytes, files);
        }
      }
    }
  }

  /** The first page of a file is cached, `page` being the page, and bound to `vp`. */
  ghost predicate Cached(s: Sharing, file: int, page: int, vp: int)
    reads s
  {
    && 0 <= vp < |s.table| && s.table[vp] == page && page in s.bytes && |s.bytes[page]| == PAGE
    && exists c :: IsFor(s.cache, c, file, 0) && s.cache[c].page == page
  }

  function FirstPage(file: int, vp: int, length: int): FileMapping {
    FileMapping(Address(vp), length, 0, file, true, true)
  }

  lemma BoundIsCached(s: Sharing, file: int, vp: int, length: int)
    requires s.Valid() && s.BoundPages(FirstPage(file, vp, length), vp, 1)
    ensures 0 <= vp < |s.table| && Cached(s, file, s.table[vp], vp)
  {
    assert Bound(s.cache, s.table, FirstPage(file, vp, length), vp);
    var c :| BoundAt(s.cache, s.table, FirstPage(file, vp, length), vp, c);
    assert EntryOk(s.cache[c], s.bytes, s.files) && IsFor(s.cache, c, file, 0);
  }

  /** Map the first page of a file and store to it. */
  method MapAndStore(file: int, content: Bytes, value: int) returns (s: Sharing, page: int)
    requires 0 < |content| <= PAGE
    ensures fresh(s) && s.Valid() && s.Clean() && s.files == map[file := content] && |s.table| == 2
    ensures s.mappings == [FirstPage(file, 0, |content|)] && s.dirty == {page}
    ensures Cached(s, file, page, 0) && s.bytes[page][0] == value
  {
    s := new Sharing(map[file := content], 2);
    var r := s.MapShared(FirstPage(file, 0, |content|), 0, 1, true, true);
    BoundIsCached(s, file, 0, |content|);
    page := s.table[0];
    s.Put(0, 0, value);
  }

  /** Map the same page of the file once more. */
  method MapAgain(s: Sharing, file: int, length: int, page: int) returns (r: int)
    requires s.Valid() && s.Clean() && 0 < length <= PAGE && |s.table| == 2 && file in s.files
    requires s.mappings == [FirstPage(file, 0, length)] && s.dirty == {page} && Cached(s, file, page, 0)
    modifies s
    ensures s.Valid() && s.files == old(s.files) && s.mappings == old(s.mappings) + [FirstPage(file, 1, length)]
    ensures r == 0 && s.dirty == {} && s.table == [page, page] && page in s.bytes && s.bytes[page] == old(s.bytes[page])
  {
    r := s.MapShared(FirstPage(file, 1, length), 1, 1, true, true);
    BoundIsCached(s, file, 1, length);
    ghost var c :| IsFor(old(s.cache), c, file, 0) && old(s.cache)[c].page == page;
    assert s.cache[c] == old(s.cache)[c];
    assert IsFor(old(s.cache), c, file, FirstPage(file, 1, length).offset + Address(0));
    assert Binds(old(s.cache), FirstPage(file, 1, length), 1, c);
    assert page !in s.dirty;
  }

  lemma NothingWritten(cache: seq<Entry>, bytes: map<int, Bytes>, files: PageCache.Files, files': PageCache.Files)
    requires OnlyFromCache(cache, bytes, {}, files, files')
    ensures files' == files
  {
    forall file | file in files
      ensures file in files' && files'[file] == files[file]
    {
      assert file in files'.Keys;
      forall o | 0 <= o < |files[file]|
        ensures files'[file][o] == files[file][o]
      {
        assert ByteFromCache(cache, bytes, {}, files, files', file, o);
      }
    }
  }

  /** A store through one mapping is lost when its page is mapped again: the second mapping
      clears the dirty bit, and a sync of both then leaves the file as it was. */
  method SecondMappingLosesStore(file: int, content: Bytes, value: int) returns (s: Sharing, page: int, r: int)
    requires 0 < |content| <= PAGE && value != content[0]
    ensures s.Valid() && s.table == [page, page] && page !in s.dirty
    ensures s.mappings == [FirstPage(file, 0, |content|), FirstPage(file, 1, |content|)]
    ensures page in s.bytes && |s.bytes[page]| == PAGE && s.bytes[page][0] == value
    ensures r == 0 && s.files == map[file := content] && !InFile(s.table, s.bytes, s.files, s.mappings[0], 0)
  {
    s, page := MapAndStore(file, content, value);
    r := MapAgain(s, file, |content|, page);
    ghost var files := s.files;
    r := s.Sync(0, 2 * PAGE, false);
    NothingWritten(s.cache, s.bytes, files, s.files);
  }
}
