/** Whole runs of shared file mappings: processes map files, store to them, write them back,
    unmap them and fork, in any order. */
module SharingRuns {
  import opened FileMappings
  import opened PageCache
  import opened FileSync

  datatype Call =
    | Map(m: FileMapping, first: nat, count: nat, grows: bool, recorded: bool)
    | Put(vp: nat, k: nat, value: int)
    | Sync(address: int, length: int, cover: bool)
    | Unmap(address: int, length: int, status: int)
    | Fork
    | Switch(process: nat)

  /** The state of shared mappings as a value. */
  datatype State = State(cache: seq<Entry>, bytes: map<int, Bytes>, dirty: set<int>, files: PageCache.Files,
                         table: seq<int>, mappings: seq<FileMapping>, others: seq<Space>)

  function Now(s: Sharing): State
    reads s
  {
    State(s.cache, s.bytes, s.dirty, s.files, s.table, s.mappings, s.others)
  }

  /** The cache is in order, and every process has the pages its mappings name. */
  ghost predicate Sane(a: State) {
    CacheOk(a.cache, a.bytes, a.files) && AllSpaces(a.cache, Spaces(a))
  }

  ghost function Spaces(a: State): seq<Space> {
    [Space(a.table, a.mappings)] + a.others
  }

  // ---- what calls do -----------------------------------------------------------------

  /** Whether a call can be made: a mapping goes to whole pages that no other mapping reaches,
      a store to a page that is bound, and the capsule unmaps only pages there are. */
  predicate Possible(a: State, call: Call) {
    match call
    case Map(m, first, count, _, _) =>
      && Proper(m) && m.shared && m.file in a.files && m.address == Address(first)
      && 0 < count && first + count <= |a.table| && m.length <= Address(count) < m.length + PAGE
      && forall i, vp :: 0 <= i < |a.mappings| && first <= vp < first + count ==> !MeetsPage(a.mappings[i], vp)
    case Put(vp, k, _) =>
      vp < |a.table| && a.table[vp] in a.bytes && k < |a.bytes[a.table[vp]]|
    case Sync(address, length, _) => 0 <= address && 0 <= length
    case Unmap(address, length, status) =>
      status == 0 ==> PageOf(address) + PagesFor(length) <= |a.table|
    case Fork => true
    case Switch(process) => process < |a.others|
  }

  ghost predicate IsClean(a: State) {
    CacheOk(a.cache, a.bytes, a.files) && CleanIn(a.cache, a.bytes, a.files, a.dirty)
  }

  ghost predicate Maps(a: State, call: Call, r: int, b: State)
    requires call.Map?
  {
    var m, first, count := call.m, call.first, call.count;
    && b == a.(cache := b.cache, bytes := b.bytes, dirty := b.dirty, table := b.table, mappings := b.mappings)
    && r == MapAnswer(a.cache, m, count, call.grows, call.recorded)
    && a.cache <= b.cache && NewLoaded(a.cache, b.cache, b.bytes, b.files)
    && (forall p :: p in a.bytes ==> p in b.bytes && b.bytes[p] == a.bytes[p])
    && SameElsewhere(a.table, b.table, first, count)
    && b.mappings == (if r == 0 then a.mappings + [m] else a.mappings)
    && (forall page :: page in b.dirty <==>
          page in a.dirty && !(Bindable(a.cache, m, count, call.grows) && Claims(a.cache, m, count, page)))
  }

  /** Bytes of dirty pages went to their files, and those of shared mappings from `lo` up to `hi`
      if the answer is 0. */
  ghost predicate WritesBack(a: State, r: int, lo: int, hi: int, b: State) {
    && b.dirty <= a.dirty && OnlyFromCache(a.cache, a.bytes, a.dirty, a.files, b.files)
    && (r == 0 ==> Saved(a.table, a.mappings, a.bytes, b.files, a.dirty, IsClean(a), lo, hi))
    && (r == 0 ==> Cleansed(a.table, a.mappings, a.dirty, b.dirty, lo, hi))
  }

  ghost predicate Unmaps(a: State, address: int, length: int, r: int, b: State) {
    && b == a.(files := b.files, dirty := b.dirty, table := b.table, mappings := b.mappings)
    && WritesBack(a, r, address, address + Address(PagesFor(length)), b)
    && if r == 0 then Unmapped(a.table, a.mappings, b.table, b.mappings, PageOf(address), PagesFor(length))
       else b == a.(files := b.files, dirty := b.dirty)
  }

  /** What a call that can be made does, and its answer. */
  ghost predicate Effect(a: State, call: Call, r: int, b: State)
    requires Possible(a, call)
  {
    match call
    case Map(_, _, _, _, _) => Maps(a, call, r, b)
    case Put(vp, k, value) =>
      var page := a.table[vp];
      b == a.(bytes := a.bytes[page := a.bytes[page][k := value]], dirty := a.dirty + {page})
    case Sync(address, length, cover) =>
      && b == a.(files := b.files, dirty := b.dirty) && WritesBack(a, r, address, address + length, b)
      && SyncAnswer(a.mappings, a.table, b.files, a.dirty, address, length, cover, r)
    case Unmap(address, length, status) =>
      Unmaps(a, address, length, r, b) && UnmapAnswer(a.mappings, a.table, b.files, a.dirty, address, length, status, r)
    case Fork => b == a.(others := a.others + [Space(a.table, a.mappings)])
    case Switch(process) =>
      var next := a.others[process];
      b == a.(table := next.table, mappings := next.mappings,
              others := a.others[process := Space(a.table, a.mappings)])
  }

  /** The call maps no page with a store pending. */
  ghost predicate Spares(a: State, call: Call) {
    call.Map? && Possible(a, call) ==> NoneDirty(a.cache, call.m, call.count, a.dirty)
  }

  /** A call that cannot be made is left out. */
  ghost predicate Leads(a: State, call: Call, r: int, b: State) {
    && (if Possible(a, call) then Effect(a, call, r, b) else b == a)
    && (IsClean(a) && Spares(a, call) ==> IsClean(b))
  }

  method MapStep(s: Sharing, call: Call) returns (r: int)
    requires s.Valid() && call.Map? && Possible(Now(s), call)
    modifies s
    ensures s.Valid() && Leads(old(Now(s)), call, r, Now(s))
  {
    r := s.MapShared(call.m, call.first, call.count, call.grows, call.recorded);
  }

  method SyncStep(s: Sharing, call: Call) returns (r: int)
    requires s.Valid() && call.Sync? && Possible(Now(s), call)
    modifies s
    ensures s.Valid() && Leads(old(Now(s)), call, r, Now(s))
  {
    r := s.Sync(call.address, call.length, call.cover);
  }

  method UnmapStep(s: Sharing, call: Call) returns (r: int)
    requires s.Valid() && call.Unmap? && Possible(Now(s), call)
    modifies s
    ensures s.Valid() && Leads(old(Now(s)), call, r, Now(s))
  {
    r := s.Unmap(call.address, call.length, call.status);
  }

  method Step(s: Sharing, call: Call) returns (r: int)
    requires s.Valid()
    modifies s
    ensures s.Valid() && Leads(old(Now(s)), call, r, Now(s))
  {
    r := 0;
    if !Possible(Now(s), call) {
      return;
    }
    match call {
      case Map(_, _, _, _, _) =>
        r := MapStep(s, call);
      case Put(vp, k, value) =>
        s.Put(vp, k, value);
      case Sync(_, _, _) =>
        r := SyncStep(s, call);
      case Unmap(_, _, _) =>
        r := UnmapStep(s, call);
      case Fork =>
        s.Fork();
      case Switch(process) =>
        s.Switch(process);
    }
  }

  /** The states between calls. */
  ghost predicate Trace(states: seq<State>, calls: seq<Call>, answers: seq<int>) {
    && |states| == |calls| + 1 && |answers| == |calls|
    && (forall i :: 0 <= i < |states| ==> Sane(states[i]))
    && forall i :: 0 <= i < |calls| ==> Goes(states, calls, answers, i)
  }

  ghost predicate Goes(states: seq<State>, calls: seq<Call>, answers: seq<int>, i: nat)
    requires i < |calls| == |answers| < |states|
  {
    Leads(states[i], calls[i], answers[i], states[i + 1])
  }

  /** Every cached page is as it was read from its file. */
  ghost predicate AsRead(a: State) {
    NewLoaded([], a.cache, a.bytes, a.files)
  }

  // ---- what memory and files hold ------------------------------------------------------

  /** Byte `o` of a file, or zero after its end. */
  ghost function ByteAt(files: PageCache.Files, file: int, o: int): int {
    if file in files && 0 <= o < |files[file]| then files[file][o] else 0
  }

  /** Entry `c` caches the page of the file that has byte `o`. */
  ghost predicate CachedIn(cache: seq<Entry>, c: int, file: int, o: int) {
    0 <= c < |cache| && cache[c].file == file && cache[c].offset <= o < cache[c].offset + PAGE
  }

  ghost predicate IsCached(cache: seq<Entry>, file: int, o: int) {
    exists c :: CachedIn(cache, c, file, o)
  }

  ghost predicate HitsIn(a: State, call: Call, c: int, file: int, o: int)
    requires call.Put? && Possible(a, call)
  {
    CachedIn(a.cache, c, file, o) && a.cache[c].page == a.table[call.vp] && a.cache[c].offset + call.k == o
  }

  /** The call stores to byte `o` of the file. */
  ghost predicate Hits(a: State, call: Call, file: int, o: int) {
    call.Put? && Possible(a, call) && exists c :: HitsIn(a, call, c, file, o)
  }

  /** What the first `n` calls of a run left at byte `o` of a file: the last value stored there
      by any process through any mapping, or else what the file began with. */
  ghost function Value(states: seq<State>, calls: seq<Call>, n: nat, file: int, o: int): int
    requires n <= |calls| < |states|
  {
    if n == 0 then ByteAt(states[0].files, file, o)
    else if Hits(states[n - 1], calls[n - 1], file, o) then calls[n - 1].value
    else Value(states, calls, n - 1, file, o)
  }

  ghost function PageByte(a: State, c: int, o: int): int {
    if 0 <= c < |a.cache| && a.cache[c].page in a.bytes && 0 <= o - a.cache[c].offset < |a.bytes[a.cache[c].page]|
    then a.bytes[a.cache[c].page][o - a.cache[c].offset] else 0
  }

  /** Every byte of every cached page is the value of its place in the file; a byte that is not
      cached has its value in the file. */
  ghost predicate Current(states: seq<State>, calls: seq<Call>, n: nat)
    requires n <= |calls| < |states|
  {
    && (forall c, file, o :: CachedIn(states[n].cache, c, file, o) ==>
          PageByte(states[n], c, o) == Value(states, calls, n, file, o))
    && (forall file, o :: !IsCached(states[n].cache, file, o) ==>
          ByteAt(states[n].files, file, o) == Value(states, calls, n, file, o))
  }

  /** Every byte of a file is a value its place had at some point of the run. */
  ghost predicate FilesHold(states: seq<State>, calls: seq<Call>, n: nat)
    requires n <= |calls| < |states|
  {
    forall file, o :: HeldOnce(states, calls, n, file, o)
  }

  ghost predicate HeldOnce(states: seq<State>, calls: seq<Call>, n: nat, file: int, o: int)
    requires n <= |calls| < |states|
  {
    exists j :: 0 <= j <= n && Value(states, calls, j, file, o) == ByteAt(states[n].files, file, o)
  }

  lemma CachedOnce(cache: seq<Entry>, bytes: map<int, Bytes>, files: PageCache.Files, c: int, d: int, file: int, o: int)
    requires CacheOk(cache, bytes, files) && CachedIn(cache, c, file, o) && CachedIn(cache, d, file, o)
    ensures c == d
  {
    assert EntryOk(cache[c], bytes, files) && EntryOk(cache[d], bytes, files);
    if cache[c].offset != cache[d].offset {
      AlignedApart(cache[c].offset, cache[d].offset);
    }
  }

  /** A store hits exactly the byte it changes, in the one page that caches it. */
  lemma PutCurrent(states: seq<State>, calls: seq<Call>, n: nat, r: int)
    requires n < |calls| < |states| && Current(states, calls, n) && Sane(states[n])
    requires calls[n].Put? && Possible(states[n], calls[n]) && Effect(states[n], calls[n], r, states[n + 1])
    ensures Current(states, calls, n + 1)
  {
    var a, b, call := states[n], states[n + 1], calls[n];
    forall c, file, o | CachedIn(b.cache, c, file, o)
      ensures PageByte(b, c, o) == Value(states, calls, n + 1, file, o)
    {
      assert CachedIn(a.cache, c, file, o) && EntryOk(a.cache[c], a.bytes, a.files);
      if Hits(a, call, file, o) {
        var d :| HitsIn(a, call, d, file, o);
        CachedOnce(a.cache, a.bytes, a.files, c, d, file, o);
      } else {
        assert !HitsIn(a, call, c, file, o);
      }
    }
  }

  lemma MapCurrent(states: seq<State>, calls: seq<Call>, n: nat, r: int)
    requires n < |calls| < |states| && Current(states, calls, n) && Sane(states[n]) && Sane(states[n + 1])
    requires calls[n].Map? && Maps(states[n], calls[n], r, states[n + 1])
    ensures Current(states, calls, n + 1)
  {
    var a, b := states[n], states[n + 1];
    forall c, file, o | CachedIn(b.cache, c, file, o)
      ensures PageByte(b, c, o) == Value(states, calls, n + 1, file, o)
    {
      assert EntryOk(b.cache[c], b.bytes, b.files);
      if c < |a.cache| {
        assert CachedIn(a.cache, c, file, o) && EntryOk(a.cache[c], a.bytes, a.files);
      } else {
        if d :| CachedIn(a.cache, d, file, o) {
          CachedOnce(b.cache, b.bytes, b.files, c, d, file, o);
        }
        assert !IsCached(a.cache, file, o);
      }
    }
    forall file, o | !IsCached(b.cache, file, o)
      ensures ByteAt(b.files, file, o) == Value(states, calls, n + 1, file, o)
    {
      if c :| CachedIn(a.cache, c, file, o) {
        assert CachedIn(b.cache, c, file, o);
      }
    }
  }

  lemma WrittenByte(a: State, b: State, file: int, o: int)
    requires Sane(a) && OnlyFromCache(a.cache, a.bytes, a.dirty, a.files, b.files)
    ensures ByteAt(b.files, file, o) == ByteAt(a.files, file, o)
            || exists c :: CachedIn(a.cache, c, file, o) && ByteAt(b.files, file, o) == PageByte(a, c, o)
  {
    if file in a.files.Keys && 0 <= o < |a.files[file]| {
      assert ByteFromCache(a.cache, a.bytes, a.dirty, a.files, b.files, file, o);
      if b.files[file][o] != a.files[file][o] {
        var c :| 0 <= c < |a.cache| && a.cache[c].page in a.dirty && Holds(a.cache[c], a.bytes, b.files, file, o);
        assert CachedIn(a.cache, c, file, o);
      }
    } else {
      assert file in b.files.Keys ==> file in a.files.Keys;
    }
  }

  /** Writing back copies values to files. */
  lemma SyncCurrent(states: seq<State>, calls: seq<Call>, n: nat)
    requires n < |calls| < |states| && Current(states, calls, n) && FilesHold(states, calls, n) && Sane(states[n])
    requires !calls[n].Put? && states[n + 1].cache == states[n].cache && states[n + 1].bytes == states[n].bytes
    requires OnlyFromCache(states[n].cache, states[n].bytes, states[n].dirty, states[n].files, states[n + 1].files)
    ensures Current(states, calls, n + 1) && FilesHold(states, calls, n + 1)
  {
    var next, a, b := n + 1, states[n], states[n + 1];
    forall c, file, o | CachedIn(b.cache, c, file, o)
      ensures PageByte(b, c, o) == Value(states, calls, next, file, o)
    {
      assert CachedIn(a.cache, c, file, o);
      assert PageByte(b, c, o) == PageByte(a, c, o);
    }
    forall file, o
      ensures HeldOnce(states, calls, next, file, o)
      ensures !IsCached(b.cache, file, o) ==> ByteAt(b.files, file, o) == Value(states, calls, next, file, o)
    {
      WrittenByte(a, b, file, o);
      assert HeldOnce(states, calls, n, file, o);
      if ByteAt(b.files, file, o) == ByteAt(a.files, file, o) {
        var j :| 0 <= j <= n && Value(states, calls, j, file, o) == ByteAt(a.files, file, o);
      } else {
        assert Value(states, calls, next, file, o) == ByteAt(b.files, file, o);
      }
    }
  }

  lemma FilesHoldNext(states: seq<State>, calls: seq<Call>, n: nat)
    requires n < |calls| < |states| && FilesHold(states, calls, n) && states[n + 1].files == states[n].files
    ensures FilesHold(states, calls, n + 1)
  {
    var next := n + 1;
    forall file, o
      ensures HeldOnce(states, calls, next, file, o)
    {
      assert HeldOnce(states, calls, n, file, o);
      var j :| 0 <= j <= n && Value(states, calls, j, file, o) == ByteAt(states[n].files, file, o);
    }
  }

  lemma SameCurrent(states: seq<State>, calls: seq<Call>, n: nat)
    requires n < |calls| < |states| && Current(states, calls, n)
    requires forall file, o :: !Hits(states[n], calls[n], file, o)
    requires states[n + 1].cache == states[n].cache && states[n + 1].bytes == states[n].bytes
    requires states[n + 1].files == states[n].files
    ensures Current(states, calls, n + 1)
  {
    var b := states[n + 1];
    forall c, file, o | CachedIn(b.cache, c, file, o)
      ensures PageByte(b, c, o) == Value(states, calls, n + 1, file, o)
    {
      assert PageByte(b, c, o) == PageByte(states[n], c, o);
    }
  }

  lemma StepCurrent(states: seq<State>, calls: seq<Call>, n: nat, r: int)
    requires n < |calls| < |states| && Current(states, calls, n) && FilesHold(states, calls, n)
    requires Sane(states[n]) && Sane(states[n + 1]) && Leads(states[n], calls[n], r, states[n + 1])
    ensures Current(states, calls, n + 1) && FilesHold(states, calls, n + 1)
  {
    if !Possible(states[n], calls[n]) {
      SameCurrent(states, calls, n);
      FilesHoldNext(states, calls, n);
      return;
    }
    match calls[n] {
      case Map(_, _, _, _, _) =>
        MapCurrent(states, calls, n, r);
        FilesHoldNext(states, calls, n);
      case Put(_, _, _) =>
        PutCurrent(states, calls, n, r);
        FilesHoldNext(states, calls, n);
      case Sync(_, _, _) =>
        SyncCurrent(states, calls, n);
      case Unmap(_, _, _) =>
        SyncCurrent(states, calls, n);
      case Fork =>
        SameCurrent(states, calls, n);
        FilesHoldNext(states, calls, n);
      case Switch(_) =>
        SameCurrent(states, calls, n);
        FilesHoldNext(states, calls, n);
    }
  }

  /** At every point of every run, memory holds the last value stored at each place of a file,
      whichever process stored it and through whichever mapping, and the file holds that value
      or an earlier one. */
  lemma {:induction false} RunIsCoherent(states: seq<State>, calls: seq<Call>, answers: seq<int>, n: nat)
    requires Trace(states, calls, answers) && AsRead(states[0]) && n <= |calls|
    ensures Current(states, calls, n) && FilesHold(states, calls, n)
  {
    if n > 0 {
      RunIsCoherent(states, calls, answers, n - 1);
      assert Goes(states, calls, answers, n - 1);
      StepCurrent(states, calls, n - 1, answers[n - 1]);
    } else {
      forall c, file, o | CachedIn(states[0].cache, c, file, o)
        ensures PageByte(states[0], c, o) == Value(states, calls, 0, file, o)
      {
        assert EntryOk(states[0].cache[c], states[0].bytes, states[0].files);
      }
      forall file, o
        ensures HeldOnce(states, calls, 0, file, o)
      {
        assert Value(states, calls, 0, file, o) == ByteAt(states[0].files, file, o);
      }
    }
  }

  /** None of the calls from `i` up to `n` stores to the place. */
  ghost predicate Untouched(states: seq<State>, calls: seq<Call>, i: nat, n: nat, file: int, o: int)
    requires n <= |calls| < |states|
  {
    forall j :: i <= j < n ==> !HitsAt(states, calls, j, file, o)
  }

  ghost predicate HitsAt(states: seq<State>, calls: seq<Call>, i: nat, file: int, o: int)
    requires i < |calls| < |states|
  {
    Hits(states[i], calls[i], file, o)
  }

  ghost predicate LastHit(states: seq<State>, calls: seq<Call>, i: nat, n: nat, file: int, o: int)
    requires n <= |calls| < |states|
  {
    i < n && HitsAt(states, calls, i, file, o) && Untouched(states, calls, i + 1, n, file, o)
  }

  lemma {:induction false} ValueStays(states: seq<State>, calls: seq<Call>, i: nat, n: nat, file: int, o: int)
    requires i <= n <= |calls| < |states| && Untouched(states, calls, i, n, file, o)
    ensures Value(states, calls, n, file, o) == Value(states, calls, i, file, o)
    decreases n - i
  {
    if i < n {
      ValueStays(states, calls, i, n - 1, file, o);
      assert !HitsAt(states, calls, n - 1, file, o);
    }
  }

  lemma {:induction false} FindLastHit(states: seq<State>, calls: seq<Call>, n: nat, file: int, o: int) returns (i: nat)
    requires n <= |calls| < |states| && !Untouched(states, calls, 0, n, file, o)
    ensures LastHit(states, calls, i, n, file, o)
    decreases n
  {
    if HitsAt(states, calls, n - 1, file, o) {
      i := n - 1;
    } else {
      i := FindLastHit(states, calls, n - 1, file, o);
    }
  }

  lemma ValueOfLastHit(states: seq<State>, calls: seq<Call>, i: nat, n: nat, file: int, o: int)
    requires n <= |calls| < |states| && LastHit(states, calls, i, n, file, o)
    ensures calls[i].Put? && Value(states, calls, n, file, o) == calls[i].value
  {
    ValueStays(states, calls, i + 1, n, file, o);
  }

  /** The value of a place is what the last call that stored to it put there; if none did, what
      the file began with. */
  lemma ValueIsLastStore(states: seq<State>, calls: seq<Call>, n: nat, file: int, o: int)
    requires n <= |calls| < |states|
    ensures if Untouched(states, calls, 0, n, file, o)
            then Value(states, calls, n, file, o) == ByteAt(states[0].files, file, o)
            else exists i: nat ::
                   LastHit(states, calls, i, n, file, o) && Value(states, calls, n, file, o) == calls[i].value
  {
    if Untouched(states, calls, 0, n, file, o) {
      ValueStays(states, calls, 0, n, file, o);
    } else {
      var i := FindLastHit(states, calls, n, file, o);
      ValueOfLastHit(states, calls, i, n, file, o);
    }
  }

  /** Every byte of a file is the one it began with or one that a call stored there. */
  lemma FileByteIsStored(states: seq<State>, calls: seq<Call>, answers: seq<int>, n: nat, file: int, o: int)
    requires Trace(states, calls, answers) && AsRead(states[0]) && n <= |calls|
    ensures ByteAt(states[n].files, file, o) == ByteAt(states[0].files, file, o)
            || exists i :: 0 <= i < n && HitsAt(states, calls, i, file, o)
                           && ByteAt(states[n].files, file, o) == calls[i].value
  {
    RunIsCoherent(states, calls, answers, n);
    assert HeldOnce(states, calls, n, file, o);
    var j :| 0 <= j <= n && Value(states, calls, j, file, o) == ByteAt(states[n].files, file, o);
    ValueIsLastStore(states, calls, j, file, o);
    if i: nat :| LastHit(states, calls, i, j, file, o) && Value(states, calls, j, file, o) == calls[i].value {
      assert HitsAt(states, calls, i, file, o);
    }
  }

  // ---- what processes see --------------------------------------------------------------

  /** What process `p` reads at address `a`. */
  ghost function Reads(a: State, p: int, address: int): int {
    if 0 <= p < |Spaces(a)| && 0 <= PageOf(address) < |Spaces(a)[p].table|
       && Spaces(a)[p].table[PageOf(address)] in a.bytes
       && InPage(address) < |a.bytes[Spaces(a)[p].table[PageOf(address)]]|
    then a.bytes[Spaces(a)[p].table[PageOf(address)]][InPage(address)] else 0
  }

  /** A page that a shared mapping reaches is the cached page of its place in the file. */
  lemma ReadsPage(a: State, p: int, i: int, address: int) returns (c: int)
    requires Sane(a) && 0 <= p < |Spaces(a)| && Shares(Spaces(a)[p].mappings, i, address)
    ensures var m := Spaces(a)[p].mappings[i];
            && CachedIn(a.cache, c, m.file, m.offset + address - m.address)
            && Reads(a, p, address) == PageByte(a, c, m.offset + address - m.address)
  {
    var space := Spaces(a)[p];
    var m := space.mappings[i];
    PageIsMet(m, address);
    PageSplit(address);
    assert AllBound(a.cache, space.table, space.mappings);
    assert Bound(a.cache, space.table, m, PageOf(address));
    c :| BoundAt(a.cache, space.table, m, PageOf(address), c);
    assert EntryOk(a.cache[c], a.bytes, a.files);
  }

  lemma ReadsCurrent(states: seq<State>, calls: seq<Call>, n: nat, p: int, i: int, address: int)
    requires n <= |calls| < |states| && Sane(states[n]) && Current(states, calls, n)
    requires 0 <= p < |Spaces(states[n])| && Shares(Spaces(states[n])[p].mappings, i, address)
    ensures var m := Spaces(states[n])[p].mappings[i];
            Reads(states[n], p, address) == Value(states, calls, n, m.file, m.offset + address - m.address)
  {
    var _ := ReadsPage(states[n], p, i, address);
  }

  /** A process that reads a shared mapping reads the last value stored at that place of the
      file by any process through any mapping. */
  lemma ReadsLastStore(states: seq<State>, calls: seq<Call>, answers: seq<int>, n: nat, p: int, i: int, address: int)
    requires Trace(states, calls, answers) && AsRead(states[0]) && n <= |calls|
    requires 0 <= p < |Spaces(states[n])| && Shares(Spaces(states[n])[p].mappings, i, address)
    ensures var m := Spaces(states[n])[p].mappings[i];
            Reads(states[n], p, address) == Value(states, calls, n, m.file, m.offset + address - m.address)
  {
    RunIsCoherent(states, calls, answers, n);
    ReadsCurrent(states, calls, n, p, i, address);
  }

  ghost predicate AllSpare(states: seq<State>, calls: seq<Call>, n: nat)
    requires n <= |calls| <= |states|
  {
    forall i :: 0 <= i < n ==> Spares(states[i], calls[i])
  }

  lemma {:induction false} RunIsClean(states: seq<State>, calls: seq<Call>, answers: seq<int>, n: nat)
    requires Trace(states, calls, answers) && IsClean(states[0]) && n <= |calls| && AllSpare(states, calls, n)
    ensures IsClean(states[n])
  {
    if n > 0 {
      RunIsClean(states, calls, answers, n - 1);
      assert Goes(states, calls, answers, n - 1);
    }
  }

  lemma AsReadIsClean(a: State)
    requires Sane(a) && AsRead(a)
    ensures IsClean(a)
  {
  }

  /** The addresses a sync or an unmap covers. */
  ghost predicate InRange(call: Call, address: int) {
    match call
    case Sync(lo, length, _) => lo <= address < lo + length
    case Unmap(lo, length, _) => lo <= address < lo + Address(PagesFor(length))
    case _ => false
  }

  /** After a sync or an unmap that succeeds, the file holds the last value stored at every place
      the process had mapped in the range, provided its page still had the dirty bit or no call
      of the run mapped a page with a store pending. */
  lemma SyncedIsLastStore(states: seq<State>, calls: seq<Call>, answers: seq<int>, n: nat, i: int, address: int)
    requires Trace(states, calls, answers) && AsRead(states[0]) && n < |calls|
    requires Possible(states[n], calls[n]) && answers[n] == 0 && InRange(calls[n], address)
    requires Shares(states[n].mappings, i, address)
    requires AllSpare(states, calls, n) || Bears(states[n].table, states[n].dirty, address)
    ensures var m := states[n].mappings[i];
            ByteAt(states[n + 1].files, m.file, m.offset + address - m.address)
            == Value(states, calls, n, m.file, m.offset + address - m.address)
  {
    if AllSpare(states, calls, n) {
      AsReadIsClean(states[0]);
      RunIsClean(states, calls, answers, n);
    }
    assert Goes(states, calls, answers, n);
    SyncedByte(states[n], calls[n], states[n + 1], i, address);
    ReadsLastStore(states, calls, answers, n, 0, i, address);
  }

  /** A byte of the range is in the file as the process reads it. */
  lemma SyncedByte(a: State, call: Call, b: State, i: int, address: int)
    requires Possible(a, call) && Effect(a, call, 0, b) && InRange(call, address) && Shares(a.mappings, i, address)
    requires IsClean(a) || Bears(a.table, a.dirty, address)
    ensures Spaces(a)[0].mappings == a.mappings
    ensures ByteAt(b.files, a.mappings[i].file, a.mappings[i].offset + address - a.mappings[i].address)
            == Reads(a, 0, address)
  {
    assert InFile(a.table, a.bytes, b.files, a.mappings[i], address);
    assert Spaces(a)[0] == Space(a.table, a.mappings);
    PageSplit(address);
  }

  // ---- runs ------------------------------------------------------------------------------

  /** The calls so far have led here. */
  ghost predicate Midway(s: Sharing, calls: seq<Call>, states: seq<State>, answers: seq<int>)
    reads s
  {
    s.Valid() && Trace(states, calls, answers) && states[|calls|] == Now(s)
  }

  /** Any run of calls that starts with every cached page as read from its file. */
  method Run(s: Sharing, calls: seq<Call>) returns (answers: seq<int>, ghost states: seq<State>)
    requires s.Valid() && AsRead(Now(s))
    modifies s
    ensures s.Valid() && Trace(states, calls, answers)
    ensures states[0] == old(Now(s)) && states[|calls|] == Now(s)
    ensures Current(states, calls, |calls|) && FilesHold(states, calls, |calls|)
    ensures AllSpare(states, calls, |calls|) ==> s.Clean()
  {
    answers, states := [], [Now(s)];
    ValidIsSane(s);
    var i := 0;
    while i < |calls|
      invariant 0 <= i <= |calls| && Midway(s, calls[..i], states, answers) && states[0] == old(Now(s))
    {
      answers, states := RunStep(s, calls, i, states, answers);
      i := i + 1;
    }
    assert calls[..i] == calls;
    RunIsCoherent(states, calls, answers, |calls|);
    AsReadIsClean(states[0]);
    if AllSpare(states, calls, |calls|) {
      RunIsClean(states, calls, answers, |calls|);
    }
  }

  method RunStep(s: Sharing, calls: seq<Call>, i: nat, ghost states: seq<State>, answers: seq<int>)
    returns (answers': seq<int>, ghost states': seq<State>)
    requires i < |calls| && Midway(s, calls[..i], states, answers)
    modifies s
    ensures Midway(s, calls[..i + 1], states', answers') && states <= states'
  {
    var r := Step(s, calls[i]);
    ValidIsSane(s);
    TraceNext(states, calls, answers, i, r, Now(s));
    answers', states' := answers + [r], states + [Now(s)];
  }

  lemma ValidIsSane(s: Sharing)
    requires s.Valid()
    ensures Sane(Now(s))
  {
  }

  lemma TraceNext(states: seq<State>, calls: seq<Call>, answers: seq<int>, i: nat, r: int, next: State)
    requires i < |calls| && Trace(states, calls[..i], answers) && Leads(states[i], calls[i], r, next) && Sane(next)
    ensures Trace(states + [next], calls[..i + 1], answers + [r])
  {
    var more, made, answered := states + [next], calls[..i + 1], answers + [r];
    forall j | 0 <= j < |made|
      ensures Goes(more, made, answered, j)
    {
      if j < i {
        assert Goes(states, calls[..i], answers, j);
      }
    }
  }
}
