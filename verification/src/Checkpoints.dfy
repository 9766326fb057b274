/** Capturing the memories of a store in a checkpoint and bringing them back
    (src/engine/checkpoint.c). */
module Checkpoints {
  import opened PageCounts

  const PAGE: int := 65536

  /** A page of a live memory and its copy in the checkpoint. */
  datatype Alias = Alias(source: int, copy: int)

  // ---- aliases ---------------------------------------------------------------------

  ghost predicate OneToOne(aliases: seq<Alias>) {
    forall i, j :: 0 <= i < j < |aliases| ==>
      aliases[i].source != aliases[j].source && aliases[i].copy != aliases[j].copy
  }

  /** Sources are pages from before the capture, copies are newer. */
  ghost predicate Newer(aliases: seq<Alias>, base: int) {
    forall i :: 0 <= i < |aliases| ==> 0 <= aliases[i].source < base <= aliases[i].copy
  }

  ghost predicate Aliased(aliases: seq<Alias>, source: int, copy: int) {
    exists i :: 0 <= i < |aliases| && aliases[i] == Alias(source, copy)
  }

  /** The search of `copy_memory`. */
  method FindAlias(aliases: seq<Alias>, source: int) returns (i: int)
    ensures i == -1 ==> forall j :: 0 <= j < |aliases| ==> aliases[j].source != source
    ensures i != -1 ==> 0 <= i < |aliases| && aliases[i].source == source
  {
    i := 0;
    while i < |aliases|
      invariant 0 <= i <= |aliases|
      invariant forall j :: 0 <= j < i ==> aliases[j].source != source
    {
      if aliases[i].source == source {
        return;
      }
      i := i + 1;
    }
    return -1;
  }

  /** Page `p` has no copy yet. */
  ghost predicate Uncopied(aliases: seq<Alias>, p: int) {
    p != NONE && forall j :: 0 <= j < |aliases| ==> aliases[j].source != p
  }

  /** What a slot of the checkpoint holds for a slot of the live memory. */
  ghost predicate Imaged(aliases: seq<Alias>, source: int, copy: int) {
    if source == NONE then copy == NONE else Aliased(aliases, source, copy)
  }

  /** Two slots share a page of the checkpoint exactly when they shared a live page. */
  lemma SharingKept(aliases: seq<Alias>, base: int, s: int, c: int, s': int, c': int)
    requires OneToOne(aliases) && Newer(aliases, base) && 0 <= base && Imaged(aliases, s, c) && Imaged(aliases, s', c')
    ensures c == c' <==> s == s'
  {
    if s != NONE && s' != NONE {
      var i :| 0 <= i < |aliases| && aliases[i] == Alias(s, c);
      var j :| 0 <= j < |aliases| && aliases[j] == Alias(s', c');
    }
  }

  // ---- which memories --------------------------------------------------------------

  ghost predicate Unique(ms: seq<int>) {
    forall i, j :: 0 <= i < j < |ms| ==> ms[i] != ms[j]
  }

  /** `add_memory`. */
  method AddMemory(found: seq<int>, memory: int) returns (found': seq<int>)
    requires Unique(found)
    ensures Unique(found') && forall m :: m in found' <==> m in found || m == memory
  {
    var i := 0;
    while i < |found|
      invariant 0 <= i <= |found|
      invariant forall j :: 0 <= j < i ==> found[j] != memory
    {
      if found[i] == memory {
        return found;
      }
      i := i + 1;
    }
    found' := found + [memory];
  }

  /** The memories of all engines, `collect_engine`: each once, however many engines share
      it. */
  method Collect(engines: seq<seq<int>>) returns (found: seq<int>)
    ensures Unique(found)
    ensures forall m :: m in found <==> exists e :: 0 <= e < |engines| && m in engines[e]
  {
    found := [];
    var e := 0;
    while e < |engines|
      invariant 0 <= e <= |engines| && Unique(found)
      invariant forall m :: m in found <==> exists d :: 0 <= d < e && m in engines[d]
    {
      ghost var before := found;
      var i := 0;
      while i < |engines[e]|
        invariant 0 <= i <= |engines[e]| && Unique(found)
        invariant forall m :: m in found <==> m in before || m in engines[e][..i]
      {
        found := AddMemory(found, engines[e][i]);
        assert engines[e][..i + 1] == engines[e][..i] + [engines[e][i]];
        i := i + 1;
      }
      assert engines[e][..i] == engines[e];
      e := e + 1;
    }
  }

  // ---- the store -------------------------------------------------------------------

  function Content(pages: Pages, p: int): Bytes {
    if p in pages then pages[p].bytes else seq(PAGE, _ => 0)
  }

  ghost predicate SharedPage(pages: Pages, p: int) {
    p in pages && pages[p].shared
  }

  ghost predicate PagesOk(pages: Pages, next: int) {
    Counted(pages) && forall p :: p in pages ==> 0 <= p < next && |pages[p].bytes| == PAGE
  }

  /** Every page has exactly the references its slots and the others hold. */
  ghost predicate Balanced(pages: Pages, live: seq<Memory>, snapshot: seq<Memory>, others: map<int, nat>) {
    forall p :: p != NONE ==>
      RefsOf(pages, p) == Total(live, p) + Total(snapshot, p) + if p in others then others[p] else 0
  }

  lemma SlotIsPage(pages: Pages, live: seq<Memory>, snapshot: seq<Memory>, others: map<int, nat>, a: int, i: int)
    requires Balanced(pages, live, snapshot, others)
    ensures 0 <= a < |live| && 0 <= i < |live[a].slots| ==> live[a].slots[i] == NONE || live[a].slots[i] in pages
    ensures 0 <= a < |snapshot| && 0 <= i < |snapshot[a].slots| ==>
              snapshot[a].slots[i] == NONE || snapshot[a].slots[i] in pages
  {
    if 0 <= a < |live| && 0 <= i < |live[a].slots| {
      CountPositive(live[a].slots, i);
      TotalAtLeast(live, a, live[a].slots[i]);
    }
    if 0 <= a < |snapshot| && 0 <= i < |snapshot[a].slots| {
      CountPositive(snapshot[a].slots, i);
      TotalAtLeast(snapshot, a, snapshot[a].slots[i]);
    }
  }

  class Checkpoint {
    var pages: Pages
    var live: seq<Memory>
    var snapshot: seq<Memory>
    var nextPage: int
    ghost const others: map<int, nat>

    ghost predicate Valid()
      reads this
    {
      0 <= nextPage && PagesOk(pages, nextPage) && Balanced(pages, live, snapshot, others)
    }

    constructor (pages: Pages, live: seq<Memory>, nextPage: int, ghost others: map<int, nat>)
      requires 0 <= nextPage && PagesOk(pages, nextPage) && Balanced(pages, live, [], others)
      ensures Valid() && this.pages == pages && this.live == live && snapshot == []
    {
      this.pages, this.live, this.nextPage, snapshot := pages, live, nextPage, [];
      this.others := others;
    }

    // ---- restoring -----------------------------------------------------------------

    /** `restore_memory`: take references for the recorded pages, drop those of the memory,
        and put the record in its place. */
    method RestoreMemory(a: int)
      requires Valid() && 0 <= a < |live| && a < |snapshot|
      modifies this`pages, this`live
      ensures Valid() && live == old(live)[a := snapshot[a]]
      ensures SameContents(old(pages), pages) && pages.Keys <= old(pages.Keys)
    {
      var record, was := snapshot[a].slots, live[a].slots;
      forall i | 0 <= i < |record|
        ensures record[i] == NONE || record[i] in pages
      {
        SlotIsPage(pages, live, snapshot, others, a, i);
      }
      var retained := RetainSlots(pages, record);
      forall p | p != NONE
        ensures RefsOf(retained, p) >= Count(was, p)
        ensures Total(live[a := snapshot[a]], p) == Total(live, p) - Count(was, p) + Count(record, p)
      {
        TotalAtLeast(live, a, p);
        TotalUpdate(live, a, snapshot[a], p);
      }
      var released := ReleaseSlots(retained, was);
      pages, live := released, live[a := snapshot[a]];
    }

    /** The bytes a slot of the checkpoint holds. */
    function Recorded(a: int, i: int): Bytes
      reads this
      requires 0 <= a < |snapshot| && 0 <= i < |snapshot[a].slots|
    {
      Content(pages, snapshot[a].slots[i])
    }

    ghost function Seen(a: int, i: int): Bytes
      reads this
      requires 0 <= a < |live| && 0 <= i < |live[a].slots|
    {
      Content(pages, live[a].slots[i])
    }

    /** `native_store_checkpoint_restore`, as far as memories go; `room` is how many of them
        can be restored before storage runs out. */
    method Restore(room: nat) returns (ok: bool)
      requires Valid() && |live| == |snapshot|
      modifies this`pages, this`live
      ensures Valid() && ok == (room >= |snapshot|)
      ensures |live| == |snapshot| && forall a :: 0 <= a < |live| ==>
                live[a] == if a < room then snapshot[a] else old(live)[a]
      ensures forall a, i :: 0 <= a < |snapshot| && 0 <= i < |snapshot[a].slots| ==>
                Recorded(a, i) == old(Recorded(a, i))
      ensures forall a, i :: 0 <= a < |snapshot| && 0 <= i < |snapshot[a].slots| ==>
                RecordShared(a, i) == old(RecordShared(a, i))
      ensures ok ==> live == snapshot && forall a, i :: 0 <= a < |live| && 0 <= i < |live[a].slots| ==>
                Seen(a, i) == old(Recorded(a, i))
    {
      var a := 0;
      while a < |snapshot|
        invariant 0 <= a <= |snapshot| && a <= room && Valid() && |live| == |snapshot|
        invariant forall b :: 0 <= b < |live| ==> live[b] == if b < a then snapshot[b] else old(live)[b]
        invariant forall b, i :: 0 <= b < |snapshot| && 0 <= i < |snapshot[b].slots| ==>
                    Recorded(b, i) == old(Recorded(b, i)) && RecordShared(b, i) == old(RecordShared(b, i))
      {
        if a >= room {
          return false;
        }
        ghost var before := pages;
        RestoreMemory(a);
        RecordsStay(before, pages, live, snapshot, others);
        a := a + 1;
      }
      ok := true;
    }

    // ---- destroying ----------------------------------------------------------------

    /** `release_memory_snapshot`. */
    method ReleaseRecord(a: int)
      requires Valid() && 0 <= a < |snapshot|
      modifies this`pages, this`snapshot
      ensures Valid() && snapshot == old(snapshot)[a := old(snapshot)[a].(slots := [])]
      ensures SameContents(old(pages), pages) && pages.Keys <= old(pages.Keys)
    {
      var empty := snapshot[a].(slots := []);
      forall p | p != NONE
        ensures RefsOf(pages, p) >= Count(snapshot[a].slots, p)
        ensures Total(snapshot[a := empty], p) == Total(snapshot, p) - Count(snapshot[a].slots, p)
      {
        TotalAtLeast(snapshot, a, p);
        TotalUpdate(snapshot, a, empty, p);
      }
      var released := ReleaseSlots(pages, snapshot[a].slots);
      pages, snapshot := released, snapshot[a := empty];
    }

    /** `native_store_checkpoint_destroy`: the pages have their references from before the
        capture again. */
    method Destroy()
      requires Valid()
      modifies this`pages, this`snapshot
      ensures Valid() && snapshot == []
      ensures SameContents(old(pages), pages) && pages.Keys <= old(pages.Keys)
    {
      var a := 0;
      while a < |snapshot|
        invariant 0 <= a <= |snapshot| && Valid()
        invariant SameContents(old(pages), pages) && pages.Keys <= old(pages.Keys)
        invariant forall b :: 0 <= b < a ==> snapshot[b].slots == []
      {
        ghost var before := pages;
        ReleaseRecord(a);
        a := a + 1;
      }
      forall p
        ensures Total(snapshot, p) == 0
      {
        EmptyTotal(snapshot, p);
      }
      snapshot := [];
    }

    // ---- capturing -----------------------------------------------------------------

    /** Every copy holds what its source holds. */
    ghost predicate Faithful(aliases: seq<Alias>, base: int)
      reads this
    {
      && OneToOne(aliases) && Newer(aliases, base) && base <= nextPage
      && forall j :: 0 <= j < |aliases| ==>
                       && aliases[j].source in pages && aliases[j].copy in pages
                       && pages[aliases[j].copy].bytes == pages[aliases[j].source].bytes
                       && pages[aliases[j].copy].shared == pages[aliases[j].source].shared
    }

    /** Page `p` has one reference more than its slots. */
    ghost predicate Pledged(p: int)
      reads this
    {
      && 0 <= nextPage && PagesOk(pages, nextPage) && p != NONE
      && forall q :: q != NONE ==>
                       RefsOf(pages, q) ==
                       Total(live, q) + Total(snapshot, q) + (if q in others then others[q] else 0)
                       + if q == p then 1 else 0
    }

    /** The copy of a page: the one made before, or a new one if there is room. */
    method CopyPage(source: int, aliases: seq<Alias>, room: nat, ghost base: int)
      returns (copy: int, aliases': seq<Alias>, room': nat)
      requires Valid() && Faithful(aliases, base) && source in pages && source < base
      modifies this`pages, this`nextPage
      ensures SameContents(old(pages), pages) && old(pages.Keys) <= pages.Keys
      ensures copy == NONE ==> room' == 0 && Valid() && aliases' == aliases && Uncopied(aliases, source)
      ensures room' + |aliases'| == room + |aliases|
      ensures forall j :: |aliases| <= j < |aliases'| ==> aliases'[j].source == source
      ensures copy != NONE ==> Pledged(copy) && Aliased(aliases', source, copy)
      ensures Faithful(aliases', base) && aliases <= aliases'
    {
      aliases', room' := aliases, room;
      var j := FindAlias(aliases, source);
      if j != -1 {
        copy := aliases[j].copy;
        assert Aliased(aliases, source, copy);
        pages := Retained(pages, copy);
        return;
      }
      if room == 0 {
        return NONE, aliases', room';
      }
      copy, aliases' := NewCopy(source, aliases, base);
      room' := room - 1;
    }

    /** `copy_checkpoint_page`, and the alias that remembers it. */
    method NewCopy(source: int, aliases: seq<Alias>, ghost base: int) returns (copy: int, aliases': seq<Alias>)
      requires Valid() && Faithful(aliases, base) && source in pages && source < base
      requires forall j :: 0 <= j < |aliases| ==> aliases[j].source != source
      modifies this`pages, this`nextPage
      ensures pages == old(pages)[copy := old(pages)[source].(refs := 1)] && copy !in old(pages)
      ensures Pledged(copy) && Aliased(aliases', source, copy) && aliases' == aliases + [Alias(source, copy)]
      ensures Faithful(aliases', base)
    {
      copy := nextPage;
      pages := pages[copy := pages[source].(refs := 1)];
      nextPage := nextPage + 1;
      aliases' := aliases + [Alias(source, copy)];
      assert aliases'[|aliases|] == Alias(source, copy);
    }

    /** One slot of `copy_memory`; `room` is how many pages can still be had. */
    method CopySlot(a: int, i: int, aliases: seq<Alias>, room: nat, ghost base: int)
      returns (ok: bool, copy: int, aliases': seq<Alias>, room': nat)
      requires Valid() && Faithful(aliases, base) && 0 <= a < |live| && a < |snapshot|
      requires 0 <= i < |live[a].slots| && i < |snapshot[a].slots| && snapshot[a].slots[i] == NONE
      requires live[a].slots[i] < base
      modifies this`pages, this`snapshot, this`nextPage
      ensures Valid() && SameContents(old(pages), pages) && old(pages.Keys) <= pages.Keys
      ensures Faithful(aliases', base) && aliases <= aliases'
      ensures ok ==>
                Imaged(aliases', live[a].slots[i], copy)
                && snapshot == old(snapshot)[a := old(snapshot)[a].(slots := old(snapshot)[a].slots[i := copy])]
      ensures !ok ==> room' == 0 && snapshot == old(snapshot) && Uncopied(aliases', live[a].slots[i])
      ensures room' + |aliases'| == room + |aliases|
      ensures forall j :: |aliases| <= j < |aliases'| ==> aliases'[j].source == live[a].slots[i] != NONE
    {
      copy, aliases', room' := NONE, aliases, room;
      var source := live[a].slots[i];
      if source == NONE {
        assert snapshot[a].slots[i := NONE] == snapshot[a].slots;
        return true, copy, aliases', room';
      }
      SlotIsPage(pages, live, snapshot, others, a, i);
      copy, aliases', room' := CopyPage(source, aliases, room, base);
      if copy == NONE {
        return false, copy, aliases', room';
      }
      SetSlot(a, i, copy);
      ok := true;
    }

    /** Record the page pledged. */
    method SetSlot(a: int, i: int, p: int)
      requires Pledged(p)
      requires 0 <= a < |snapshot| && 0 <= i < |snapshot[a].slots| && snapshot[a].slots[i] == NONE
      modifies this`snapshot
      ensures Valid() && snapshot == old(snapshot)[a := old(snapshot)[a].(slots := old(snapshot)[a].slots[i := p])]
    {
      var record := snapshot[a].(slots := snapshot[a].slots[i := p]);
      forall q | q != NONE
        ensures Total(snapshot[a := record], q) == Total(snapshot, q) + if q == p then 1 else 0
      {
        CountUpdate(snapshot[a].slots, i, p, q);
        TotalUpdate(snapshot, a, record, q);
      }
      snapshot := snapshot[a := record];
    }

    /** The slots below `i` of record `a` are images. */
    ghost predicate CopiedUpTo(aliases: seq<Alias>, a: int, i: int)
      reads this
      requires 0 <= a < |live| && a < |snapshot|
    {
      && |snapshot[a].slots| == |live[a].slots| && snapshot[a] == live[a].(slots := snapshot[a].slots)
      && (forall j :: 0 <= j < i <= |live[a].slots| ==> Imaged(aliases, live[a].slots[j], snapshot[a].slots[j]))
      && (forall j :: 0 <= i <= j < |live[a].slots| ==> snapshot[a].slots[j] == NONE)
    }

    /** `copy_memory`. */
    method CopyMemory(aliases: seq<Alias>, room: nat, ghost base: int)
      returns (ok: bool, aliases': seq<Alias>, room': nat)
      requires Valid() && Faithful(aliases, base) && |snapshot| < |live|
      requires forall i :: 0 <= i < |live[|snapshot|].slots| ==> live[|snapshot|].slots[i] < base
      modifies this`pages, this`snapshot, this`nextPage
      ensures Valid() && SameContents(old(pages), pages) && old(pages.Keys) <= pages.Keys
      ensures Faithful(aliases', base) && aliases <= aliases'
      ensures |snapshot| == |old(snapshot)| + 1 && snapshot[..|old(snapshot)|] == old(snapshot)
      ensures ok ==> RecordOf(aliases', live[|snapshot| - 1], snapshot[|snapshot| - 1])
      ensures room' + |aliases'| == room + |aliases|
      ensures Drawn(aliases, live) ==> Drawn(aliases', live)
      ensures !ok ==> room' == 0 && exists p :: p in HeldPages(live) && Uncopied(aliases', p)
    {
      aliases', room' := aliases, room;
      var a := |snapshot|;
      var blank := live[a].(slots := seq(|live[a].slots|, _ => NONE));
      forall p | p != NONE
        ensures Total(snapshot + [blank], p) == Total(snapshot, p)
      {
        BlankRecord(snapshot, blank, p);
      }
      snapshot := snapshot + [blank];
      var i := 0;
      while i < |live[a].slots|
        invariant 0 <= i <= |live[a].slots| && |snapshot| == a + 1 && snapshot[..a] == old(snapshot)
        invariant Valid() && SameContents(old(pages), pages) && old(pages.Keys) <= pages.Keys
        invariant Faithful(aliases', base) && aliases <= aliases'
        invariant CopiedUpTo(aliases', a, i)
        invariant room' + |aliases'| == room + |aliases|
        invariant Drawn(aliases, live) ==> Drawn(aliases', live)
      {
        ok, aliases', room' := CopyNext(a, i, aliases', room', base);
        if !ok {
          return;
        }
        i := i + 1;
      }
      ok := true;
    }

    /** The next slot of that loop. */
    method CopyNext(a: int, i: int, aliases: seq<Alias>, room: nat, ghost base: int)
      returns (ok: bool, aliases': seq<Alias>, room': nat)
      requires Valid() && Faithful(aliases, base) && 0 <= a < |live| && a < |snapshot|
      requires 0 <= i < |live[a].slots| && CopiedUpTo(aliases, a, i) && live[a].slots[i] < base
      modifies this`pages, this`snapshot, this`nextPage
      ensures Valid() && SameContents(old(pages), pages) && old(pages.Keys) <= pages.Keys
      ensures Faithful(aliases', base) && aliases <= aliases'
      ensures |snapshot| == |old(snapshot)| && snapshot[..a] == old(snapshot)[..a]
      ensures ok ==> CopiedUpTo(aliases', a, i + 1)
      ensures room' + |aliases'| == room + |aliases|
      ensures Drawn(aliases, live) ==> Drawn(aliases', live)
      ensures !ok ==> room' == 0 && exists p :: p in HeldPages(live) && Uncopied(aliases', p)
    {
      ghost var slots := snapshot[a].slots;
      var copy;
      ok, copy, aliases', room' := CopySlot(a, i, aliases, room, base);
      assert live[a].slots[i] != NONE ==> live[a].slots[i] in HeldPages(live);
      if ok {
        forall j | 0 <= j < i
          ensures Imaged(aliases', live[a].slots[j], slots[j])
        {
          ImagesStay(aliases, aliases', live[a].slots[j], slots[j]);
        }
      }
    }

    /** `native_store_checkpoint_capture`, as far as memories go: the previous checkpoint is
        destroyed first. Success records every memory with its sharing; failure leaves no
        record. */
    method Capture(room: nat) returns (ok: bool)
      requires Valid()
      modifies this`pages, this`snapshot, this`nextPage
      ensures Valid() && (!ok ==> snapshot == []) && (ok <==> |HeldPages(live)| <= room)
      ensures ok ==> Mirrors(live, snapshot) && SameSharing(live, snapshot)
      ensures ok ==> forall a, i :: 0 <= a < |live| && 0 <= i < |live[a].slots| ==>
                RecordShared(a, i) == SlotShared(a, i)
      ensures ok ==> forall a, i :: 0 <= a < |live| && 0 <= i < |live[a].slots| ==> Recorded(a, i) == Seen(a, i)
      ensures forall a, i :: 0 <= a < |live| && 0 <= i < |live[a].slots| ==>
                Seen(a, i) == old(Seen(a, i)) && SlotShared(a, i) == old(SlotShared(a, i))
    {
      ghost var first := pages;
      Destroy();
      LiveStays(first, pages, live, snapshot, others);
      ok := CaptureAll(room);
    }

    /** The loop over the memories. */
    method CaptureAll(room: nat) returns (ok: bool)
      requires Valid() && snapshot == []
      modifies this`pages, this`snapshot, this`nextPage
      ensures Valid() && (!ok ==> snapshot == []) && (ok <==> |HeldPages(live)| <= room)
      ensures SameBytes(live, old(pages), pages) && SameShared(live, old(pages), pages)
      ensures ok ==> Mirrors(live, snapshot) && SameSharing(live, snapshot)
      ensures ok ==> forall a, i :: 0 <= a < |live| && 0 <= i < |live[a].slots| ==>
                Recorded(a, i) == Seen(a, i) && RecordShared(a, i) == SlotShared(a, i)
    {
      ghost var base := nextPage;
      SlotsArePages();
      var aliases: seq<Alias>, left: nat := [], room;
      while |snapshot| < |live|
        invariant Valid() && Faithful(aliases, base) && |snapshot| <= |live|
        invariant SameContents(old(pages), pages) && old(pages.Keys) <= pages.Keys
        invariant forall a :: 0 <= a < |snapshot| ==> RecordOf(aliases, live[a], snapshot[a])
        invariant left + |aliases| == room && Drawn(aliases, live)
        decreases |live| - |snapshot|
      {
        ok, aliases, left := CaptureNext(aliases, left, base);
        if !ok {
          DrawnFits(aliases, live);
          Abort(old(pages));
          return;
        }
      }
      AllCopied(aliases, live, snapshot);
      DrawnFits(aliases, live);
      ok := true;
      assert SameBytes(live, old(pages), pages) && SameShared(live, old(pages), pages) by {
        LiveSame(old(pages), pages, live);
      }
      Captured(aliases, base);
    }

    /** Give up a capture that began with `pages0`. */
    method Abort(ghost pages0: Pages)
      requires Valid() && SameContents(pages0, pages) && pages0.Keys <= pages.Keys && HoldsPages(live, pages0)
      modifies this`pages, this`snapshot
      ensures Valid() && snapshot == []
      ensures SameBytes(live, pages0, pages) && SameShared(live, pages0, pages)
    {
      LiveSame(pages0, pages, live);
      ghost var during := pages;
      Destroy();
      LiveStays(during, pages, live, snapshot, others);
    }

    method CaptureNext(aliases: seq<Alias>, room: nat, ghost base: int)
      returns (ok: bool, aliases': seq<Alias>, room': nat)
      requires Valid() && Faithful(aliases, base) && |snapshot| < |live|
      requires forall a :: 0 <= a < |snapshot| ==> RecordOf(aliases, live[a], snapshot[a])
      requires forall i :: 0 <= i < |live[|snapshot|].slots| ==> live[|snapshot|].slots[i] < base
      modifies this`pages, this`snapshot, this`nextPage
      ensures Valid() && SameContents(old(pages), pages) && old(pages.Keys) <= pages.Keys
      ensures Faithful(aliases', base) && |snapshot| == |old(snapshot)| + 1
      ensures ok ==> forall a :: 0 <= a < |snapshot| ==> RecordOf(aliases', live[a], snapshot[a])
      ensures room' + |aliases'| == room + |aliases|
      ensures Drawn(aliases, live) ==> Drawn(aliases', live)
      ensures !ok ==> room' == 0 && exists p :: p in HeldPages(live) && Uncopied(aliases', p)
    {
      ok, aliases', room' := CopyMemory(aliases, room, base);
      if ok {
        forall a | 0 <= a < |old(snapshot)|
          ensures RecordOf(aliases', live[a], snapshot[a])
        {
          assert snapshot[a] == old(snapshot)[a];
          RecordStays(aliases, aliases', live[a], old(snapshot)[a]);
        }
      }
    }

    lemma SlotsArePages()
      requires Valid()
      ensures HoldsPages(live, pages) && HoldsPages(snapshot, pages)
    {
      forall a, i | 0 <= a < |snapshot| && 0 <= i < |snapshot[a].slots|
        ensures snapshot[a].slots[i] == NONE || snapshot[a].slots[i] in pages
      {
        SlotIsPage(pages, live, snapshot, others, a, i);
      }
      forall a, i | 0 <= a < |live| && 0 <= i < |live[a].slots|
        ensures live[a].slots[i] == NONE || live[a].slots[i] in pages
      {
        SlotIsPage(pages, live, snapshot, others, a, i);
      }
    }

    /** The records are images, so they mirror the memories. */
    lemma Captured(aliases: seq<Alias>, base: int)
      requires Valid() && Faithful(aliases, base) && 0 <= base && |snapshot| == |live|
      requires forall a :: 0 <= a < |snapshot| ==> RecordOf(aliases, live[a], snapshot[a])
      ensures Mirrors(live, snapshot) && SameSharing(live, snapshot)
      ensures forall a, i :: 0 <= a < |live| && 0 <= i < |live[a].slots| ==>
                Recorded(a, i) == Seen(a, i) && RecordShared(a, i) == SlotShared(a, i)
    {
      forall a, i, b, j | 0 <= a < |live| && 0 <= i < |live[a].slots| && 0 <= b < |live| && 0 <= j < |live[b].slots|
        ensures snapshot[a].slots[i] == snapshot[b].slots[j] <==> live[a].slots[i] == live[b].slots[j]
      {
        SharingKept(aliases, base, live[a].slots[i], snapshot[a].slots[i], live[b].slots[j], snapshot[b].slots[j]);
      }
      forall a, i | 0 <= a < |live| && 0 <= i < |live[a].slots|
        ensures Recorded(a, i) == Seen(a, i) && RecordShared(a, i) == SlotShared(a, i)
        ensures snapshot[a].slots[i] == NONE <==> live[a].slots[i] == NONE
      {
        assert Imaged(aliases, live[a].slots[i], snapshot[a].slots[i]);
        if live[a].slots[i] != NONE {
          var k :| 0 <= k < |aliases| && aliases[k] == Alias(live[a].slots[i], snapshot[a].slots[i]);
        }
      }
    }

    // ---- writing -------------------------------------------------------------------

    /** Put a page nobody else holds into a slot, dropping one reference of its old page. */
    method Replace(a: int, i: int, bytes: Bytes, shared: bool)
      requires Valid() && 0 <= a < |live| && 0 <= i < |live[a].slots| && |bytes| == PAGE
      requires bytes == Seen(a, i) && (live[a].slots[i] == NONE || RefsOf(pages, live[a].slots[i]) > 1)
      modifies this`pages, this`live, this`nextPage
      ensures Valid() && nextPage == old(nextPage) + 1
      ensures live == WithSlot(old(live), a, i, old(nextPage))
      ensures SameContents(old(pages), pages) && old(pages.Keys) <= pages.Keys && old(nextPage) !in old(pages)
      ensures old(nextPage) in pages && pages[old(nextPage)] == Page(bytes, 1, shared)
    {
      var was, copy := live[a].slots[i], nextPage;
      SlotIsPage(pages, live, snapshot, others, a, i);
      var m := live[a].(slots := live[a].slots[i := copy]);
      forall p | p != NONE
        ensures Total(live[a := m], p) == Total(live, p) - (if p == was then 1 else 0) + if p == copy then 1 else 0
      {
        CountUpdate(live[a].slots, i, copy, p);
        TotalUpdate(live, a, m, p);
      }
      pages := Released(pages, was)[copy := Page(bytes, 1, shared)];
      live, nextPage := live[a := m], nextPage + 1;
    }

    /** Before a store: make a missing page, and copy a page held elsewhere unless it is
        shared (`detach_memory_page`). */
    method Detach(a: int, i: int, room: bool) returns (ok: bool)
      requires Valid() && 0 <= a < |live| && 0 <= i < |live[a].slots|
      modifies this`pages, this`live, this`nextPage
      ensures Valid()
      ensures |live| == |old(live)| && |live[a].slots| == |old(live)[a].slots|
      ensures live == WithSlot(old(live), a, i, live[a].slots[i])
      ensures SameContents(old(pages), pages) && old(pages.Keys) <= pages.Keys
      ensures Seen(a, i) == old(Seen(a, i))
      ensures ok <==> room || old(InPlace(a, i))
      ensures !ok || old(InPlace(a, i)) ==> live == old(live)
      ensures ok ==>
                && live[a].slots[i] in pages
                && (RefsOf(pages, live[a].slots[i]) == 1 || (live == old(live) && pages[live[a].slots[i]].shared))
    {
      var p := live[a].slots[i];
      assert live[a].slots[i := p] == live[a].slots && live[a := live[a]] == live;
      SlotIsPage(pages, live, snapshot, others, a, i);
      if p == NONE {
        if room {
          Replace(a, i, seq(PAGE, _ => 0), false);
        }
        return room;
      }
      if pages[p].refs <= 1 || pages[p].shared {
        return true;
      }
      if room {
        Replace(a, i, pages[p].bytes, false);
      }
      return room;
    }

    /** Some record holds page `p`. */
    ghost predicate InRecords(p: int)
      reads this
    {
      InSlots(snapshot, p)
    }

    /** The records hold the bytes they held with the page table `pages0`. */
    ghost predicate RecordsKept(pages0: Pages)
      reads this
    {
      SameBytes(snapshot, pages0, pages)
    }

    /** A guest store (`exec_memory_write`). Another slot sees it exactly if it holds the same
        page and the page is shared; so do the records, which makes a checkpoint lose its
        bytes to a store made after a restore exactly if the page stored to is shared. */
    method Write(a: int, i: int, k: int, value: int, room: bool) returns (ok: bool)
      requires Valid() && 0 <= a < |live| && 0 <= i < |live[a].slots| && 0 <= k < PAGE
      modifies this`pages, this`live, this`nextPage
      ensures Valid() && |live| == |old(live)| && |live[a].slots| == |old(live)[a].slots|
      ensures live == WithSlot(old(live), a, i, live[a].slots[i])
      ensures ok <==> room || old(InPlace(a, i))
      ensures !ok || old(InPlace(a, i)) ==> live == old(live)
      ensures ok ==> Seen(a, i) == old(Seen(a, i))[k := value]
      ensures forall b, j :: 0 <= b < |live| && 0 <= j < |live[b].slots| && (b != a || j != i) ==>
                               Seen(b, j) ==
                               if ok && live[b].slots[j] == live[a].slots[i] then old(Seen(b, j))[k := value]
                               else old(Seen(b, j))
      ensures ok ==>
                forall b, j :: && 0 <= b < |live| && 0 <= j < |live[b].slots| && (b != a || j != i)
                               && live[b].slots[j] == live[a].slots[i] ==>
                                 live == old(live) && old(SlotShared(a, i))
      ensures RecordsKept(old(pages)) <==>
              !(ok && old(SlotShared(a, i)) && old(InRecords(live[a].slots[i])) && old(Seen(a, i))[k] != value)
    {
      ghost var pages0, live0 := pages, live;
      SlotsArePages();
      ok := Detach(a, i, room);
      LiveSame(pages0, pages, live0);
      LiveSame(pages0, pages, snapshot);
      if ok {
        if RefsOf(pages, live[a].slots[i]) == 1 {
          AloneOrShared(a, i);
        }
        ghost var pages1 := pages;
        Poke(live[a].slots[i], k, value);
        RecordsPoked(snapshot, pages0, pages1, pages, live[a].slots[i], k, value);
      }
    }

    /** The page in the slot is a shared one. */
    ghost predicate SlotShared(a: int, i: int)
      reads this
      requires 0 <= a < |live| && 0 <= i < |live[a].slots|
    {
      SharedPage(pages, live[a].slots[i])
    }

    /** The slot has a page that a store may change: no other slot holds it, or it is shared. */
    ghost predicate InPlace(a: int, i: int)
      reads this
      requires 0 <= a < |live| && 0 <= i < |live[a].slots|
    {
      RefsOf(pages, live[a].slots[i]) == 1 || SlotShared(a, i)
    }

    ghost predicate RecordShared(a: int, i: int)
      reads this
      requires 0 <= a < |snapshot| && 0 <= i < |snapshot[a].slots|
    {
      SharedPage(pages, snapshot[a].slots[i])
    }

    method Poke(p: int, k: int, value: int)
      requires Valid() && p in pages && 0 <= k < PAGE
      modifies this`pages
      ensures Valid()
      ensures forall q :: Content(pages, q) ==
                if q == p then old(Content(pages, p))[k := value] else old(Content(pages, q))
    {
      pages := pages[p := pages[p].(bytes := pages[p].bytes[k := value])];
    }

    /** A page with one reference is in no other slot and in no record. */
    lemma AloneOrShared(a: int, i: int)
      requires Valid() && 0 <= a < |live| && 0 <= i < |live[a].slots| && RefsOf(pages, live[a].slots[i]) == 1
      ensures !InRecords(live[a].slots[i])
      ensures forall b, j :: 0 <= b < |live| && 0 <= j < |live[b].slots| && (b != a || j != i) ==>
                live[b].slots[j] != live[a].slots[i]
    {
      var p := live[a].slots[i];
      CountPositive(live[a].slots, i);
      TotalAtLeast(live, a, p);
      forall b, j | 0 <= b < |snapshot| && 0 <= j < |snapshot[b].slots|
        ensures snapshot[b].slots[j] != p
      {
        if snapshot[b].slots[j] == p {
          CountPositive(snapshot[b].slots, j);
          TotalAtLeast(snapshot, b, p);
        }
      }
      forall b, j | 0 <= b < |live| && 0 <= j < |live[b].slots| && (b != a || j != i)
        ensures live[b].slots[j] != p
      {
        if live[b].slots[j] == p {
          TwoSlots(live, a, i, b, j);
        }
      }
    }
  }

  ghost predicate InSlots(ms: seq<Memory>, p: int) {
    exists b, j :: 0 <= b < |ms| && 0 <= j < |ms[b].slots| && ms[b].slots[j] == p
  }

  /** Changing a byte of page `p` shows in the slots exactly if one holds `p`. */
  lemma RecordsPoked(ms: seq<Memory>, pages0: Pages, pages: Pages, pages': Pages, p: int, k: int, value: int)
    requires SameBytes(ms, pages0, pages) && 0 <= k < |Content(pages, p)|
    requires forall q :: Content(pages', q) == if q == p then Content(pages, p)[k := value] else Content(pages, q)
    ensures SameBytes(ms, pages0, pages') <==> !(InSlots(ms, p) && Content(pages, p)[k] != value)
  {
    if InSlots(ms, p) {
      var b, j :| 0 <= b < |ms| && 0 <= j < |ms[b].slots| && ms[b].slots[j] == p;
      assert Content(pages0, ms[b].slots[j]) == Content(pages, p);
      assert Content(pages', p)[k] == value;
      if Content(pages, p)[k] == value {
        assert Content(pages, p)[k := value] == Content(pages, p);
      } else {
        assert Content(pages', ms[b].slots[j]) != Content(pages0, ms[b].slots[j]);
      }
    }
  }

  lemma TwoSlots(ms: seq<Memory>, a: int, i: int, b: int, j: int)
    requires 0 <= a < |ms| && 0 <= i < |ms[a].slots| && 0 <= b < |ms| && 0 <= j < |ms[b].slots| && (b != a || j != i)
    requires ms[a].slots[i] == ms[b].slots[j] != NONE
    ensures Total(ms, ms[a].slots[i]) >= 2
  {
    var p := ms[a].slots[i];
    var m := ms[a].(slots := ms[a].slots[i := NONE]);
    CountUpdate(ms[a].slots, i, NONE, p);
    TotalUpdate(ms, a, m, p);
    var ms' := ms[a := m];
    assert ms'[b].slots[j] == p;
    CountPositive(ms'[b].slots, j);
    TotalAtLeast(ms', b, p);
  }

  ghost function WithSlot(ms: seq<Memory>, a: int, i: int, p: int): seq<Memory>
    requires 0 <= a < |ms| && 0 <= i < |ms[a].slots|
  {
    ms[a := ms[a].(slots := ms[a].slots[i := p])]
  }

  /** Every field of every record equals the memory's, but for the pages in its slots. */
  ghost predicate Mirrors(live: seq<Memory>, snapshot: seq<Memory>) {
    && |snapshot| == |live|
    && forall a :: 0 <= a < |live| ==>
       |snapshot[a].slots| == |live[a].slots| && snapshot[a] == live[a].(slots := snapshot[a].slots)
  }

  /** Two slots hold the same page in the records exactly when they do in the memories. */
  ghost predicate SameSharing(live: seq<Memory>, snapshot: seq<Memory>)
    requires Mirrors(live, snapshot)
  {
    && (forall a, i, b, j :: 0 <= a < |live| && 0 <= i < |live[a].slots|
                             && 0 <= b < |live| && 0 <= j < |live[b].slots| ==>
                               (snapshot[a].slots[i] == snapshot[b].slots[j] <==> live[a].slots[i] == live[b].slots[j]))
    && (forall a, i :: 0 <= a < |live| && 0 <= i < |live[a].slots| ==>
         (snapshot[a].slots[i] == NONE <==> live[a].slots[i] == NONE))
  }

  ghost predicate HoldsPages(live: seq<Memory>, pages: Pages) {
    forall a, i :: 0 <= a < |live| && 0 <= i < |live[a].slots| ==> live[a].slots[i] == NONE || live[a].slots[i] in pages
  }

  /** The slots hold the same bytes. */
  ghost predicate SameBytes(live: seq<Memory>, pages: Pages, pages': Pages) {
    forall a, i :: 0 <= a < |live| && 0 <= i < |live[a].slots| ==>
      Content(pages', live[a].slots[i]) == Content(pages, live[a].slots[i])
  }

  ghost predicate SameShared(live: seq<Memory>, pages: Pages, pages': Pages) {
    forall a, i :: 0 <= a < |live| && 0 <= i < |live[a].slots| ==>
      SharedPage(pages', live[a].slots[i]) == SharedPage(pages, live[a].slots[i])
  }

  lemma LiveStays(pages: Pages, pages': Pages, live: seq<Memory>, snapshot: seq<Memory>, others: map<int, nat>)
    requires SameContents(pages, pages') && pages'.Keys <= pages.Keys && Balanced(pages', live, snapshot, others)
    requires NONE !in pages
    ensures SameBytes(live, pages, pages') && SameShared(live, pages, pages')
  {
    forall a, i | 0 <= a < |live| && 0 <= i < |live[a].slots|
      ensures Content(pages', live[a].slots[i]) == Content(pages, live[a].slots[i])
      ensures SharedPage(pages', live[a].slots[i]) == SharedPage(pages, live[a].slots[i])
    {
      SlotIsPage(pages', live, snapshot, others, a, i);
    }
  }

  lemma LiveSame(pages: Pages, pages': Pages, live: seq<Memory>)
    requires SameContents(pages, pages') && pages.Keys <= pages'.Keys && HoldsPages(live, pages) && NONE !in pages'
    ensures SameBytes(live, pages, pages') && SameShared(live, pages, pages')
  {
    forall a, i | 0 <= a < |live| && 0 <= i < |live[a].slots|
      ensures Content(pages', live[a].slots[i]) == Content(pages, live[a].slots[i])
      ensures SharedPage(pages', live[a].slots[i]) == SharedPage(pages, live[a].slots[i])
    {
      assert live[a].slots[i] == NONE || live[a].slots[i] in pages;
    }
  }

  /** The record `r` is an image of the memory `m`. */
  ghost predicate RecordOf(aliases: seq<Alias>, m: Memory, r: Memory) {
    && |r.slots| == |m.slots| && r == m.(slots := r.slots)
    && forall i :: 0 <= i < |m.slots| ==> Imaged(aliases, m.slots[i], r.slots[i])
  }

  lemma ImagesStay(aliases: seq<Alias>, aliases': seq<Alias>, source: int, copy: int)
    requires aliases <= aliases' && Imaged(aliases, source, copy)
    ensures Imaged(aliases', source, copy)
  {
    if source != NONE {
      var i :| 0 <= i < |aliases| && aliases[i] == Alias(source, copy);
      assert aliases'[i] == aliases[i];
    }
  }

  lemma RecordStays(aliases: seq<Alias>, aliases': seq<Alias>, m: Memory, r: Memory)
    requires aliases <= aliases' && RecordOf(aliases, m, r)
    ensures RecordOf(aliases', m, r)
  {
    forall i | 0 <= i < |m.slots|
      ensures Imaged(aliases', m.slots[i], r.slots[i])
    {
      ImagesStay(aliases, aliases', m.slots[i], r.slots[i]);
    }
  }

  lemma BlankRecord(ms: seq<Memory>, r: Memory, p: int)
    requires p != NONE && forall i :: 0 <= i < |r.slots| ==> r.slots[i] == NONE
    ensures Total(ms + [r], p) == Total(ms, p)
  {
    assert (ms + [r])[..|ms|] == ms;
    CountNone(r.slots, p);
  }

  /** The pages that memories hold. */
  ghost function HeldPages(ms: seq<Memory>): set<int> {
    set a, i | 0 <= a < |ms| && 0 <= i < |ms[a].slots| && ms[a].slots[i] != NONE :: ms[a].slots[i]
  }

  /** The copies made so far are of pages that memories hold. */
  ghost predicate Drawn(aliases: seq<Alias>, ms: seq<Memory>) {
    forall j :: 0 <= j < |aliases| ==> aliases[j].source in HeldPages(ms)
  }

  ghost function Sources(aliases: seq<Alias>): set<int> {
    set j | 0 <= j < |aliases| :: aliases[j].source
  }

  lemma {:induction false} SourcesCount(aliases: seq<Alias>)
    requires OneToOne(aliases)
    ensures |Sources(aliases)| == |aliases|
  {
    if aliases != [] {
      var n := |aliases| - 1;
      SourcesCount(aliases[..n]);
      assert Sources(aliases) == Sources(aliases[..n]) + {aliases[n].source};
    }
  }

  lemma DrawnFits(aliases: seq<Alias>, ms: seq<Memory>)
    requires OneToOne(aliases) && Drawn(aliases, ms)
    ensures |aliases| <= |HeldPages(ms)|
    ensures (forall p :: p in HeldPages(ms) ==> p in Sources(aliases)) <==> |aliases| == |HeldPages(ms)|
  {
    SourcesCount(aliases);
    assert Sources(aliases) <= HeldPages(ms);
    if |aliases| == |HeldPages(ms)| {
      SubsetEqual(Sources(aliases), HeldPages(ms));
    }
    if forall p :: p in HeldPages(ms) ==> p in Sources(aliases) {
      assert Sources(aliases) == HeldPages(ms);
    }
    SubsetSize(Sources(aliases), HeldPages(ms));
  }

  lemma AllCopied(aliases: seq<Alias>, ms: seq<Memory>, records: seq<Memory>)
    requires |ms| == |records| && forall a :: 0 <= a < |ms| ==> RecordOf(aliases, ms[a], records[a])
    ensures forall p :: p in HeldPages(ms) ==> p in Sources(aliases)
  {
    forall a, i | 0 <= a < |ms| && 0 <= i < |ms[a].slots| && ms[a].slots[i] != NONE
      ensures ms[a].slots[i] in Sources(aliases)
    {
      assert RecordOf(aliases, ms[a], records[a]);
      assert Imaged(aliases, ms[a].slots[i], records[a].slots[i]);
    }
  }

  lemma SubsetSize(a: set<int>, b: set<int>)
    requires a <= b
    ensures |a| <= |b|
  {
    assert b == a + (b - a);
  }

  lemma SubsetEqual(a: set<int>, b: set<int>)
    requires a <= b && |a| == |b|
    ensures a == b
  {
    assert b == a + (b - a);
  }

  lemma OnePage(m: Memory, page: Page)
    requires m.slots == [0] && page.refs == 1 && |page.bytes| == PAGE
    ensures PagesOk(map[0 := page], 1) && Balanced(map[0 := page], [m], [], map[]) && |HeldPages([m])| == 1
  {
    assert [m][..0] == [] && [0][..0] == [];
    forall p
      ensures Total([m], p) == if p == 0 then 1 else 0
    {
      assert Total([m], p) == Total([m][..0], p) + Count([0], p);
      assert Count([0], p) == Count([0][..0], p) + if p == 0 then 1 else 0;
    }
    assert [m][0].slots[0] in HeldPages([m]);
    assert HeldPages([m]) == {0};
  }

  /** A shared page of zeros, captured, restored and then stored to: a second restore does
      not bring the zero back. */
  method StoreAfterRestore() returns (c: Checkpoint)
    ensures fresh(c) && c.Valid() && |c.live| == 1 && |c.live[0].slots| == 1
    ensures c.Seen(0, 0) == (seq(PAGE, _ => 0))[0 := 1]
  {
    var zeros: Bytes := seq(PAGE, _ => 0);
    var m := Memory([0], [3], [], 1, 1, 0, true, false, false);
    OnePage(m, Page(zeros, 1, true));
    c := new Checkpoint(map[0 := Page(zeros, 1, true)], [m], 1, map[]);
    assert c.Seen(0, 0) == zeros && c.SlotShared(0, 0);
    var ok := c.Capture(1);
    assert c.Recorded(0, 0) == zeros && c.RecordShared(0, 0);
    ok := c.Restore(1);
    assert c.Seen(0, 0) == zeros && c.SlotShared(0, 0);
    ok := c.Write(0, 0, 0, 1, true);
    assert c.Recorded(0, 0) == c.Seen(0, 0);
    ok := c.Restore(1);
  }

  lemma {:induction false} EmptyTotal(ms: seq<Memory>, p: int)
    requires forall a :: 0 <= a < |ms| ==> ms[a].slots == []
    ensures Total(ms, p) == 0
  {
    if ms != [] {
      EmptyTotal(ms[..|ms| - 1], p);
    }
  }

  /** Records hold references, so no restore frees the pages of one. */
  lemma RecordsStay(pages: Pages, pages': Pages, live': seq<Memory>, snapshot: seq<Memory>, others: map<int, nat>)
    requires SameContents(pages, pages') && pages'.Keys <= pages.Keys && Balanced(pages', live', snapshot, others)
    requires NONE !in pages
    ensures forall a, i :: 0 <= a < |snapshot| && 0 <= i < |snapshot[a].slots| ==>
                             && Content(pages', snapshot[a].slots[i]) == Content(pages, snapshot[a].slots[i])
                             && SharedPage(pages', snapshot[a].slots[i]) == SharedPage(pages, snapshot[a].slots[i])
  {
    forall a, i | 0 <= a < |snapshot| && 0 <= i < |snapshot[a].slots|
      ensures Content(pages', snapshot[a].slots[i]) == Content(pages, snapshot[a].slots[i])
      ensures SharedPage(pages', snapshot[a].slots[i]) == SharedPage(pages, snapshot[a].slots[i])
    {
      SlotIsPage(pages', live', snapshot, others, a, i);
    }
  }
}
