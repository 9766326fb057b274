/** The startup block the engine writes at the end of a new image's memory
    (src/engine/store.c), and how the guest reads it back (src/aux/libc/unistd.c). */
module StartupBlock {
  import opened LinearMemory

  const ADDRESSES: int := 0x1_0000_0000
  const HEADER: int := 44

  type Bytes = seq<Byte>

  datatype Startup = Startup(argc: int, argv: seq<Bytes>, envc: int, envp: seq<Bytes>, pid: int, cwd: Bytes)

  // ---- what a memory holds ---------------------------------------------------------

  ghost predicate Holds(m: Bytes, at: int, s: Bytes) {
    0 <= at && at + |s| <= |m| && m[at..at + |s|] == s
  }

  /** The number whose little-endian bytes are `s`. */
  function Value(s: Bytes): nat {
    if s == [] then 0 else s[0] + 0x100 * Value(s[1..])
  }

  function Read32(m: Bytes, at: int): int {
    if 0 <= at && at + 4 <= |m| then Value(m[at..at + 4]) else 0
  }

  ghost predicate WordAt(m: Bytes, at: int, w: int) {
    0 <= at && at + 4 <= |m| && Read32(m, at) == w
  }

  /** The bytes [lo, hi) are as they were. */
  ghost predicate Same(m: Bytes, m': Bytes, lo: int, hi: int) {
    |m'| == |m| && forall x :: lo <= x < hi && 0 <= x < |m| ==> m'[x] == m[x]
  }

  lemma HoldsStays(m: Bytes, m': Bytes, at: int, s: Bytes)
    requires Same(m, m', at, at + |s|) && Holds(m, at, s)
    ensures Holds(m', at, s)
  {
    assert m'[at..at + |s|] == m[at..at + |s|];
  }

  lemma WordStays(m: Bytes, m': Bytes, at: int, w: int)
    requires Same(m, m', at, at + 4) && WordAt(m, at, w)
    ensures WordAt(m', at, w)
  {
    assert m'[at..at + 4] == m[at..at + 4];
  }

  /** `native_store_bytes`. */
  method StoreBytes(mem: array<Byte>, at: int, s: Bytes)
    requires 0 <= at && at + |s| <= mem.Length
    modifies mem
    ensures Holds(mem[..], at, s) && Same(old(mem[..]), mem[..], 0, at)
    ensures Same(old(mem[..]), mem[..], at + |s|, mem.Length)
  {
    var i := 0;
    while i < |s|
      invariant 0 <= i <= |s|
      invariant mem[at..at + i] == s[..i]
      invariant forall x :: 0 <= x < mem.Length && !(at <= x < at + i) ==> mem[x] == old(mem[x])
    {
      mem[at + i] := s[i];
      i := i + 1;
    }
  }

  /** `native_store_u32`. */
  method StoreWord(mem: array<Byte>, at: int, w: Word)
    requires 0 <= at && at + 4 <= mem.Length
    modifies mem
    ensures WordAt(mem[..], at, w) && Same(old(mem[..]), mem[..], 0, at)
    ensures Same(old(mem[..]), mem[..], at + 4, mem.Length)
  {
    mem[at], mem[at + 1], mem[at + 2], mem[at + 3] := ByteOf(w, 0), ByteOf(w, 1), ByteOf(w, 2), ByteOf(w, 3);
    assert mem[..][at..at + 4] == [ByteOf(w, 0), ByteOf(w, 1), ByteOf(w, 2), ByteOf(w, 3)];
    ValueOfFour(ByteOf(w, 0), ByteOf(w, 1), ByteOf(w, 2), ByteOf(w, 3));
    WordRoundTrip(w);
  }

  lemma ValueOfFour(b0: Byte, b1: Byte, b2: Byte, b3: Byte)
    ensures Value([b0, b1, b2, b3]) == FromBytes(b0, b1, b2, b3)
  {
    assert [b0, b1, b2, b3][1..] == [b1, b2, b3] && [b1, b2, b3][1..] == [b2, b3] && [b2, b3][1..] == [b3]
           && [b3][1..] == [];
    assert Value([b3]) == b3;
    assert Value([b2, b3]) == b2 + 0x100 * Value([b3]);
    assert Value([b1, b2, b3]) == b1 + 0x100 * Value([b2, b3]);
  }

  lemma WordRoundTrip(w: Word)
    ensures FromBytes(ByteOf(w, 0), ByteOf(w, 1), ByteOf(w, 2), ByteOf(w, 3)) == w
  {
    var a := w / 0x100;
    var b := a / 0x100;
    assert w == w % 0x100 + 0x100 * a;
    assert a == a % 0x100 + 0x100 * b;
    assert b == b % 0x100 + 0x100 * (b / 0x100);
  }

  // ---- strings ---------------------------------------------------------------------

  ghost predicate Terminated(s: Bytes) {
    forall i :: 0 <= i < |s| ==> s[i] != 0
  }

  function ReadString(m: Bytes, at: int): Bytes
    decreases |m| - at
  {
    if !(0 <= at < |m|) || m[at] == 0 then [] else [m[at]] + ReadString(m, at + 1)
  }

  lemma {:induction false} StringBack(m: Bytes, at: int, s: Bytes)
    requires Terminated(s) && Holds(m, at, s + [0])
    ensures ReadString(m, at) == s
    decreases |s|
  {
    assert (s + [0])[0] == m[at..at + |s| + 1][0] == m[at];
    if s != [] {
      assert m[at + 1..at + 1 + |s|] == m[at..at + |s| + 1][1..] == s[1..] + [0];
      StringBack(m, at + 1, s[1..]);
    }
  }

  /** The bytes strings take with their terminators. */
  function Size(ss: seq<Bytes>): nat {
    if ss == [] then 0 else Size(ss[..|ss| - 1]) + |ss[|ss| - 1]| + 1
  }

  /** Where string `j` goes when they start at `strings`. */
  ghost function Place(strings: int, ss: seq<Bytes>, j: int): int
    requires 0 <= j <= |ss|
  {
    strings + Size(ss[..j])
  }

  lemma {:induction false} PlaceNext(strings: int, ss: seq<Bytes>, j: nat)
    requires j < |ss|
    ensures Place(strings, ss, j) + |ss[j]| + 1 == Place(strings, ss, j + 1) <= strings + Size(ss)
    decreases |ss| - j
  {
    assert ss[..j + 1][..j] == ss[..j];
    if j + 1 < |ss| {
      PlaceNext(strings, ss, j + 1);
    } else {
      assert ss[..j + 1] == ss;
    }
  }

  lemma PlaceOrder(strings: int, ss: seq<Bytes>, i: nat, j: nat)
    requires i < j <= |ss|
    ensures Place(strings, ss, i) + |ss[i]| + 1 <= Place(strings, ss, j)
  {
    PlaceNext(strings, ss[..j], i);
    assert ss[..j][..i] == ss[..i] && ss[..j][..i + 1] == ss[..i + 1];
  }

  // ---- vectors of strings ----------------------------------------------------------

  /** String `j` is at its place, and the vector points there. */
  ghost predicate Entry(m: Bytes, vector: int, strings: int, ss: seq<Bytes>, j: int)
    requires 0 <= j < |ss|
  {
    && Place(strings, ss, j) > 0
    && WordAt(m, vector + 4 * j, Place(strings, ss, j))
    && Holds(m, Place(strings, ss, j), ss[j] + [0])
  }

  ghost predicate Entries(m: Bytes, vector: int, strings: int, ss: seq<Bytes>, n: int) {
    forall j :: 0 <= j < n <= |ss| ==> Entry(m, vector, strings, ss, j)
  }

  /** A null-terminated vector of C strings. */
  ghost predicate Vector(m: Bytes, vector: int, strings: int, ss: seq<Bytes>) {
    Entries(m, vector, strings, ss, |ss|) && WordAt(m, vector + 4 * |ss|, 0)
  }

  function ReadVector(m: Bytes, at: int): seq<Bytes>
    decreases |m| - at
  {
    if !(0 <= at && at + 4 <= |m|) || Read32(m, at) == 0 then []
    else [ReadString(m, Read32(m, at))] + ReadVector(m, at + 4)
  }

  /** Following a vector recovers its strings. */
  lemma {:induction false} VectorBack(m: Bytes, vector: int, strings: int, ss: seq<Bytes>, j: nat)
    requires Vector(m, vector, strings, ss) && j <= |ss|
    requires forall i :: 0 <= i < |ss| ==> Terminated(ss[i])
    ensures ReadVector(m, vector + 4 * j) == ss[j..]
    decreases |ss| - j
  {
    if j < |ss| {
      assert Entry(m, vector, strings, ss, j);
      StringBack(m, Place(strings, ss, j), ss[j]);
      VectorBack(m, vector, strings, ss, j + 1);
      assert ss[j..] == [ss[j]] + ss[j + 1..];
    }
  }

  lemma EntriesStay(m: Bytes, m': Bytes, vector: int, strings: int, ss: seq<Bytes>, n: int)
    requires Entries(m, vector, strings, ss, n) && 0 <= n <= |ss|
    requires Same(m, m', vector, vector + 4 * n) && Same(m, m', strings, Place(strings, ss, n))
    ensures Entries(m', vector, strings, ss, n)
  {
    forall j | 0 <= j < n
      ensures Entry(m', vector, strings, ss, j)
    {
      assert Entry(m, vector, strings, ss, j);
      PlaceOrder(strings, ss, j, n);
      WordStays(m, m', vector + 4 * j, Place(strings, ss, j));
      HoldsStays(m, m', Place(strings, ss, j), ss[j] + [0]);
    }
  }

  lemma PlaceLast(strings: int, ss: seq<Bytes>)
    ensures Place(strings, ss, |ss|) == strings + Size(ss)
  {
    assert ss[..|ss|] == ss;
  }

  /** What keeps the vector and its strings keeps them readable. */
  lemma VectorStays(m: Bytes, m': Bytes, vector: int, strings: int, ss: seq<Bytes>)
    requires Vector(m, vector, strings, ss)
    requires Same(m, m', vector, vector + 4 * |ss| + 4) && Same(m, m', strings, strings + Size(ss))
    ensures Vector(m', vector, strings, ss)
  {
    PlaceLast(strings, ss);
    EntriesStay(m, m', vector, strings, ss, |ss|);
    WordStays(m, m', vector + 4 * |ss|, 0);
  }

  /** One round of the loops of `native_process_image_startup_block`. */
  method StoreEntry(mem: array<Byte>, vector: int, ghost strings: int, ss: seq<Bytes>, i: int, cursor: int)
    returns (cursor': int)
    requires 0 <= vector && vector + 4 * |ss| <= strings && 0 < strings && 0 <= i < |ss|
    requires cursor == Place(strings, ss, i) && strings + Size(ss) <= mem.Length && strings + Size(ss) <= ADDRESSES
    requires Entries(mem[..], vector, strings, ss, i)
    modifies mem
    ensures Entries(mem[..], vector, strings, ss, i + 1) && cursor' == Place(strings, ss, i + 1)
    ensures Same(old(mem[..]), mem[..], 0, vector + 4 * i) && Same(old(mem[..]), mem[..], vector + 4 * i + 4, cursor)
    ensures Same(old(mem[..]), mem[..], cursor', mem.Length)
  {
    PlaceNext(strings, ss, i);
    ghost var m0 := mem[..];
    StoreWord(mem, vector + 4 * i, cursor);
    ghost var m1 := mem[..];
    EntriesStay(m0, m1, vector, strings, ss, i);
    StoreBytes(mem, cursor, ss[i] + [0]);
    EntriesStay(m1, mem[..], vector, strings, ss, i);
    WordStays(m1, mem[..], vector + 4 * i, cursor);
    cursor' := cursor + |ss[i]| + 1;
  }

  /** A loop of `native_process_image_startup_block` and the null that ends its vector. */
  method StoreVector(mem: array<Byte>, vector: int, strings: int, ss: seq<Bytes>) returns (cursor: int)
    requires 0 <= vector && vector + 4 * |ss| + 4 <= strings
    requires strings + Size(ss) <= mem.Length && strings + Size(ss) <= ADDRESSES
    modifies mem
    ensures Vector(mem[..], vector, strings, ss) && cursor == strings + Size(ss)
    ensures Same(old(mem[..]), mem[..], 0, vector) && Same(old(mem[..]), mem[..], vector + 4 * |ss| + 4, strings)
    ensures Same(old(mem[..]), mem[..], cursor, mem.Length)
  {
    cursor := strings;
    var i := 0;
    while i < |ss|
      invariant 0 <= i <= |ss| && cursor == Place(strings, ss, i) >= strings
      invariant Entries(mem[..], vector, strings, ss, i)
      invariant Same(old(mem[..]), mem[..], 0, vector) && Same(old(mem[..]), mem[..], vector + 4 * i, strings)
      invariant Same(old(mem[..]), mem[..], cursor, mem.Length)
    {
      PlaceNext(strings, ss, i);
      cursor := StoreEntry(mem, vector, strings, ss, i, cursor);
      i := i + 1;
    }
    PlaceLast(strings, ss);
    ghost var m := mem[..];
    StoreWord(mem, vector + 4 * |ss|, 0);
    EntriesStay(m, mem[..], vector, strings, ss, |ss|);
  }

  // ---- the block -------------------------------------------------------------------

  /** How many bytes the block takes. */
  function Total(argv: seq<Bytes>, envp: seq<Bytes>, cwd: Bytes): int {
    HEADER + 4 * (|argv| + 1 + |envp| + 1) + |cwd| + 1 + Size(argv) + Size(envp)
  }

  /** The places of the environment vector, the strings and the working directory. */
  function EnvpAt(base: int, argv: seq<Bytes>): int {
    base + HEADER + (|argv| + 1) * 4
  }

  ghost function StringsAt(base: int, argv: seq<Bytes>, envp: seq<Bytes>): int {
    EnvpAt(base, argv) + (|envp| + 1) * 4
  }

  ghost function CwdAt(base: int, argv: seq<Bytes>, envp: seq<Bytes>): int {
    StringsAt(base, argv, envp) + Size(argv) + Size(envp)
  }

  /** Consecutive words. */
  ghost predicate WordsAt(m: Bytes, at: int, ws: seq<int>) {
    forall j :: 0 <= j < |ws| ==> WordAt(m, at + 4 * j, ws[j])
  }

  lemma WordsStay(m: Bytes, m': Bytes, at: int, ws: seq<int>)
    requires WordsAt(m, at, ws) && Same(m, m', at, at + 4 * |ws|)
    ensures WordsAt(m', at, ws)
  {
    forall j | 0 <= j < |ws|
      ensures WordAt(m', at + 4 * j, ws[j])
    {
      WordStays(m, m', at + 4 * j, ws[j]);
    }
  }

  /** Store the next of consecutive words. */
  method AppendWord(mem: array<Byte>, at: int, ghost ws: seq<int>, next: int, w: Word)
    requires WordsAt(mem[..], at, ws) && 0 <= at && next == at + 4 * |ws| && next + 4 <= mem.Length
    modifies mem
    ensures WordsAt(mem[..], at, ws + [w]) && Same(old(mem[..]), mem[..], 0, next)
    ensures Same(old(mem[..]), mem[..], next + 4, mem.Length)
  {
    StoreWord(mem, next, w);
    WordsStay(old(mem[..]), mem[..], at, ws);
  }

  /** The words of the header that are known at once. */
  ghost function Header(base: int, argv: seq<Bytes>, envp: seq<Bytes>, pid: int): seq<int> {
    [|argv|, base + HEADER, |envp|, EnvpAt(base, argv), pid]
  }

  method StoreHeader(mem: array<Byte>, base: int, argc: Word, argvAt: Word, envc: Word, envpAt: Word, pid: Word)
    requires 0 <= base && base + 20 <= mem.Length
    modifies mem
    ensures WordsAt(mem[..], base, [argc, argvAt, envc, envpAt, pid]) && Same(old(mem[..]), mem[..], 0, base)
    ensures Same(old(mem[..]), mem[..], base + 20, mem.Length)
  {
    ghost var ws: seq<int> := [argc, argvAt, envc, envpAt, pid];
    assert [] + [argc] == ws[..1] && ws[..1] + [argvAt] == ws[..2] && ws[..2] + [envc] == ws[..3]
           && ws[..3] + [envpAt] == ws[..4] && ws[..4] + [pid] == ws;
    AppendWord(mem, base, [], base, argc);
    AppendWord(mem, base, ws[..1], base + 4, argvAt);
    AppendWord(mem, base, ws[..2], base + 8, envc);
    AppendWord(mem, base, ws[..3], base + 12, envpAt);
    AppendWord(mem, base, ws[..4], base + 16, pid);
  }

  ghost predicate Fits(base: int, argv: seq<Bytes>, envp: seq<Bytes>, cwd: Bytes, length: int) {
    0 <= base && base + Total(argv, envp, cwd) <= length && base + Total(argv, envp, cwd) <= ADDRESSES
  }

  /** The header but for the working directory, and the arguments. */
  ghost predicate LaidArgv(m: Bytes, base: int, argv: seq<Bytes>, envp: seq<Bytes>, pid: int) {
    && WordsAt(m, base, Header(base, argv, envp, pid))
    && Vector(m, base + HEADER, StringsAt(base, argv, envp), argv)
  }

  lemma ArgvStays(m: Bytes, m': Bytes, base: int, argv: seq<Bytes>, envp: seq<Bytes>, pid: int)
    requires LaidArgv(m, base, argv, envp, pid)
    requires Same(m, m', base, base + 20) && Same(m, m', base + HEADER, EnvpAt(base, argv))
    requires Same(m, m', StringsAt(base, argv, envp), StringsAt(base, argv, envp) + Size(argv))
    ensures LaidArgv(m', base, argv, envp, pid)
  {
    WordsStay(m, m', base, Header(base, argv, envp, pid));
    VectorStays(m, m', base + HEADER, StringsAt(base, argv, envp), argv);
  }

  method LayArgv(mem: array<Byte>, base: int, argv: seq<Bytes>, envp: seq<Bytes>, pid: Word, ghost cwd: Bytes)
    returns (cursor: int)
    requires Fits(base, argv, envp, cwd, mem.Length)
    modifies mem
    ensures LaidArgv(mem[..], base, argv, envp, pid) && cursor == StringsAt(base, argv, envp) + Size(argv)
    ensures Same(old(mem[..]), mem[..], 0, base) && Same(old(mem[..]), mem[..], cursor, mem.Length)
  {
    var argvAt := base + HEADER;
    var envpAt := argvAt + (|argv| + 1) * 4;
    var strings := envpAt + (|envp| + 1) * 4;
    StoreHeader(mem, base, |argv|, argvAt, |envp|, envpAt, pid);
    ghost var m := mem[..];
    cursor := StoreVector(mem, argvAt, strings, argv);
    WordsStay(m, mem[..], base, Header(base, argv, envp, pid));
  }

  /** The vectors are in place, and all of the header but the working directory. */
  ghost predicate LaidVectors(m: Bytes, base: int, argv: seq<Bytes>, envp: seq<Bytes>, pid: int) {
    LaidArgv(m, base, argv, envp, pid) && Vector(m, EnvpAt(base, argv), StringsAt(base, argv, envp) + Size(argv), envp)
  }

  method LayVectors(mem: array<Byte>, base: int, argv: seq<Bytes>, envp: seq<Bytes>, pid: Word, ghost cwd: Bytes)
    returns (cursor: int)
    requires Fits(base, argv, envp, cwd, mem.Length)
    modifies mem
    ensures LaidVectors(mem[..], base, argv, envp, pid) && cursor == CwdAt(base, argv, envp)
    ensures Same(old(mem[..]), mem[..], 0, base) && Same(old(mem[..]), mem[..], cursor, mem.Length)
  {
    cursor := LayArgv(mem, base, argv, envp, pid, cwd);
    ghost var m := mem[..];
    cursor := StoreVector(mem, EnvpAt(base, argv), cursor, envp);
    ArgvStays(m, mem[..], base, argv, envp, pid);
  }

  lemma VectorsStay(m: Bytes, m': Bytes, base: int, argv: seq<Bytes>, envp: seq<Bytes>, pid: int)
    requires LaidVectors(m, base, argv, envp, pid)
    requires Same(m, m', base, base + 20) && Same(m, m', base + HEADER, CwdAt(base, argv, envp))
    ensures LaidVectors(m', base, argv, envp, pid)
  {
    ArgvStays(m, m', base, argv, envp, pid);
    VectorStays(m, m', EnvpAt(base, argv), StringsAt(base, argv, envp) + Size(argv), envp);
  }

  /** The whole block is in place. */
  ghost predicate Laid(m: Bytes, base: int, argv: seq<Bytes>, envp: seq<Bytes>, pid: int, cwd: Bytes) {
    && LaidVectors(m, base, argv, envp, pid)
    && WordAt(m, base + 20, CwdAt(base, argv, envp))
    && Holds(m, CwdAt(base, argv, envp), cwd + [0])
  }

  method Lay(mem: array<Byte>, base: int, argv: seq<Bytes>, envp: seq<Bytes>, pid: Word, cwd: Bytes)
    requires Fits(base, argv, envp, cwd, mem.Length)
    modifies mem
    ensures Laid(mem[..], base, argv, envp, pid, cwd) && Same(old(mem[..]), mem[..], 0, base)
    ensures Same(old(mem[..]), mem[..], base + Total(argv, envp, cwd), mem.Length)
  {
    var cursor := LayVectors(mem, base, argv, envp, pid, cwd);
    ghost var m := mem[..];
    StoreWord(mem, base + 20, cursor);
    VectorsStay(m, mem[..], base, argv, envp, pid);
    m := mem[..];
    StoreBytes(mem, cursor, cwd + [0]);
    VectorsStay(m, mem[..], base, argv, envp, pid);
    WordStays(m, mem[..], base + 20, cursor);
  }

  /** Follow the header. */
  ghost function Decode(m: Bytes, base: int): Startup {
    Startup(Read32(m, base), ReadVector(m, Read32(m, base + 4)),
            Read32(m, base + 8), ReadVector(m, Read32(m, base + 12)),
            Read32(m, base + 16), ReadString(m, Read32(m, base + 20)))
  }

  /** The vectors follow the eleven words of the header at once, and the block ends with the
      working directory. */
  ghost predicate Tight(m: Bytes, base: int, total: int, cwd: Bytes) {
    Read32(m, base + 4) == base + 44 && Read32(m, base + 20) + |cwd| + 1 == base + total
  }

  lemma LaidDecodes(m: Bytes, base: int, argv: seq<Bytes>, envp: seq<Bytes>, pid: int, cwd: Bytes)
    requires Laid(m, base, argv, envp, pid, cwd) && Terminated(cwd)
    requires forall i :: 0 <= i < |argv| ==> Terminated(argv[i])
    requires forall i :: 0 <= i < |envp| ==> Terminated(envp[i])
    ensures Decode(m, base) == Startup(|argv|, argv, |envp|, envp, pid, cwd)
    ensures Tight(m, base, Total(argv, envp, cwd), cwd)
  {
    HeaderReads(m, base, |argv|, base + HEADER, |envp|, EnvpAt(base, argv), pid);
    assert ReadVector(m, base + HEADER) == argv by {
      VectorBack(m, base + HEADER, StringsAt(base, argv, envp), argv, 0);
      assert argv[0..] == argv;
    }
    assert ReadVector(m, EnvpAt(base, argv)) == envp by {
      VectorBack(m, EnvpAt(base, argv), StringsAt(base, argv, envp) + Size(argv), envp, 0);
      assert envp[0..] == envp;
    }
    assert ReadString(m, CwdAt(base, argv, envp)) == cwd by {
      StringBack(m, CwdAt(base, argv, envp), cwd);
    }
    assert CwdAt(base, argv, envp) + |cwd| + 1 == base + Total(argv, envp, cwd);
    assert WordAt(m, base + 20, CwdAt(base, argv, envp));
    Assemble(m, base, base + HEADER, EnvpAt(base, argv), CwdAt(base, argv, envp),
             Startup(|argv|, argv, |envp|, envp, pid, cwd));
  }

  lemma HeaderReads(m: Bytes, base: int, argc: int, argvAt: int, envc: int, envpAt: int, pid: int)
    requires WordsAt(m, base, [argc, argvAt, envc, envpAt, pid])
    ensures Read32(m, base) == argc && Read32(m, base + 4) == argvAt && Read32(m, base + 8) == envc
    ensures Read32(m, base + 12) == envpAt && Read32(m, base + 16) == pid
  {
    var ws := [argc, argvAt, envc, envpAt, pid];
    assert WordAt(m, base + 4 * 0, ws[0]) && WordAt(m, base + 4 * 1, ws[1]) && WordAt(m, base + 4 * 2, ws[2]);
    assert WordAt(m, base + 4 * 3, ws[3]) && WordAt(m, base + 4 * 4, ws[4]);
  }

  lemma Assemble(m: Bytes, base: int, argvAt: int, envpAt: int, cwdAt: int, s: Startup)
    requires Read32(m, base) == s.argc && Read32(m, base + 4) == argvAt && Read32(m, base + 8) == s.envc
    requires Read32(m, base + 12) == envpAt && Read32(m, base + 16) == s.pid && Read32(m, base + 20) == cwdAt
    requires ReadVector(m, argvAt) == s.argv && ReadVector(m, envpAt) == s.envp && ReadString(m, cwdAt) == s.cwd
    ensures Decode(m, base) == s
  {
  }

  /** The source keeps the address of the block in 32 bits. */
  function Cut(address: int): int {
    address % ADDRESSES
  }

  /** `native_process_image_startup_block`: it refuses a block that does not fit; otherwise
      nothing outside the block changes, and following its header recovers what went in. The
      block ends where the memory ends, exactly if its address fits in 32 bits; in a larger
      memory it lies lower by a multiple of 2^32, if it does not wrap around there. */
  method Write(mem: array<Byte>, argv: seq<Bytes>, envp: seq<Bytes>, pid: Word, cwd: Bytes)
    returns (ok: bool, base: int)
    requires Cut(mem.Length - Total(argv, envp, cwd)) + Total(argv, envp, cwd) <= ADDRESSES
             || mem.Length < Total(argv, envp, cwd) || ADDRESSES <= Total(argv, envp, cwd)
    requires Terminated(cwd)
    requires forall i :: 0 <= i < |argv| ==> Terminated(argv[i])
    requires forall i :: 0 <= i < |envp| ==> Terminated(envp[i])
    modifies mem
    ensures ok <==> Total(argv, envp, cwd) <= mem.Length && Total(argv, envp, cwd) < 0x1_0000_0000
    ensures !ok ==> mem[..] == old(mem[..])
    ensures ok ==>
              && base == (mem.Length - Total(argv, envp, cwd)) % 0x1_0000_0000
              && (base + Total(argv, envp, cwd) == mem.Length <==> mem.Length - Total(argv, envp, cwd) < ADDRESSES)
              && Same(old(mem[..]), mem[..], 0, base)
              && Same(old(mem[..]), mem[..], base + Total(argv, envp, cwd), mem.Length)
    ensures ok ==> Decode(mem[..], base) == Startup(|argv|, argv, |envp|, envp, pid, cwd)
    ensures ok ==> Tight(mem[..], base, Total(argv, envp, cwd), cwd)
  {
    var total := Total(argv, envp, cwd);
    ok := total <= mem.Length && total < ADDRESSES;
    if !ok {
      return ok, 0;
    }
    base := Cut(mem.Length - total);
    CutIs(mem.Length - total);
    PutBlock(mem, base, argv, envp, pid, cwd);
  }

  method PutBlock(mem: array<Byte>, base: int, argv: seq<Bytes>, envp: seq<Bytes>, pid: Word, cwd: Bytes)
    requires Fits(base, argv, envp, cwd, mem.Length) && Terminated(cwd)
    requires forall i :: 0 <= i < |argv| ==> Terminated(argv[i])
    requires forall i :: 0 <= i < |envp| ==> Terminated(envp[i])
    modifies mem
    ensures Same(old(mem[..]), mem[..], 0, base)
    ensures Same(old(mem[..]), mem[..], base + Total(argv, envp, cwd), mem.Length)
    ensures Decode(mem[..], base) == Startup(|argv|, argv, |envp|, envp, pid, cwd)
    ensures Tight(mem[..], base, Total(argv, envp, cwd), cwd)
  {
    Lay(mem, base, argv, envp, pid, cwd);
    LaidDecodes(mem[..], base, argv, envp, pid, cwd);
  }

  lemma CutIs(address: nat)
    ensures 0 <= Cut(address) <= address && (Cut(address) == address <==> address < ADDRESSES)
  {
  }
}
