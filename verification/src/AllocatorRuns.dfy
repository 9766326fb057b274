/** The allocator as a program sees it: a map from live pointers to bytes. Every call
    of the allocator takes one step of this map, and whole runs follow from the steps. */
module AllocatorRuns {
  import opened Bits
  import opened HeapSteps
  import A = Allocator

  type Allocations = map<int, seq<int>>

  datatype Call =
    | Malloc(bytes: nat)
    | Calloc(count: nat, each: nat)
    | Realloc(ptr: int, bytes: nat)
    | Free(ptr: int)
    | AlignedAlloc(alignment: nat, bytes: nat)
    | PosixMemalign(given: bool, alignment: nat, bytes: nat) // answers what is stored, 0 for nothing
    | Init(base: int)
    | Store(at: int, index: nat, value: int)

  /** What the C library asks of its callers: sizes are 32-bit, pointers are null or live. */
  ghost predicate Legal(live: Allocations, call: Call) {
    match call
    case Malloc(bytes) => bytes <= U32_MAX
    case Calloc(count, each) => count <= U32_MAX && each <= U32_MAX
    case Realloc(ptr, bytes) => bytes <= U32_MAX && (ptr == 0 || ptr in live)
    case Free(ptr) => ptr == 0 || ptr in live
    case AlignedAlloc(alignment, bytes) => alignment <= U32_MAX && bytes <= U32_MAX
    case PosixMemalign(_, alignment, bytes) => alignment <= U32_MAX && bytes <= U32_MAX
    case Init(base) => 0 <= base <= I32_MAX
    case Store(at, index, value) => at in live && index < |live[at]| && 0 <= value < 256
  }

  /** A new allocation of `bytes` bytes, and less than 32 more, appears at `r`, and nothing else
      changes. */
  ghost predicate Appears(live: Allocations, r: int, live': Allocations, bytes: int) {
    r != 0 && r !in live && r in live' && live' - {r} == live && bytes <= |live'[r]| < bytes + 32
  }

  /** One step of the map: `call` answers `r` and turns `live` into `live'`. */
  ghost predicate Step(live: Allocations, call: Call, r: int, live': Allocations) {
    match call
    case Malloc(bytes) =>
      (r == 0 && live' == live) || Appears(live, r, live', bytes)
    case Calloc(count, each) =>
      (r == 0 && live' == live) || (Appears(live, r, live', count * each) && Zeroed(live'[r], count * each))
    case Realloc(ptr, bytes) =>
      if ptr != 0 && bytes == 0 then r == 0 && live' == live - {ptr}
      else (r == 0 && live' == live)
           || (&& r !in live && r in live' && live' - {r} == live - {ptr} && bytes <= |live'[r]| < bytes + 32
               && (ptr != 0 ==> ptr in live && StartsAlike(live'[r], live[ptr], bytes)))
    case Free(ptr) =>
      r == 0 && live' == live - {ptr}
    case AlignedAlloc(alignment, bytes) =>
      (r == 0 && live' == live)
      || (alignment > 0 && Appears(live, r, live', bytes) && r % alignment == 0)
    case PosixMemalign(given, alignment, bytes) =>
      (r == 0 && live' == live)
      || (given && alignment > 0 && Appears(live, r, live', bytes) && r % alignment == 0)
    case Init(_) =>
      (r == 0 && live' == live) || (r == 1 && live' == map[])
    case Store(at, index, value) =>
      r == 0 && at in live && index < |live[at]| && live' == live[at := live[at][index := value]]
  }

  /** Every legal call on a valid allocator is a step of the map and leaves it valid. */
  method Execute(a: A.Allocator, call: Call) returns (r: int)
    requires a.Valid() && Legal(a.Allocations(), call)
    modifies a
    ensures a.Valid()
    ensures Step(old(a.Allocations()), call, r, a.Allocations())
  {
    if call.Malloc? || call.Calloc? || call.AlignedAlloc? || call.PosixMemalign? {
      r := ExecuteGrant(a, call);
    } else if call.Init? {
      var ok := a.Init(call.base);
      r := if ok then 1 else 0;
    } else {
      r := ExecuteOnLive(a, call);
    }
  }

  method ExecuteGrant(a: A.Allocator, call: Call) returns (r: int)
    requires a.Valid() && Legal(a.Allocations(), call)
    requires call.Malloc? || call.Calloc? || call.AlignedAlloc? || call.PosixMemalign?
    modifies a
    ensures a.Valid()
    ensures Step(old(a.Allocations()), call, r, a.Allocations())
  {
    match call {
      case Malloc(bytes) => r := a.Malloc(bytes);
      case Calloc(count, each) => r := a.Calloc(count, each);
      case AlignedAlloc(alignment, bytes) => r := a.AlignedAlloc(alignment, bytes);
      case PosixMemalign(given, alignment, bytes) =>
        var error;
        error, r := a.PosixMemalign(given, alignment, bytes);
    }
  }

  method ExecuteOnLive(a: A.Allocator, call: Call) returns (r: int)
    requires a.Valid() && Legal(a.Allocations(), call)
    requires call.Realloc? || call.Free? || call.Store?
    modifies a
    ensures a.Valid()
    ensures Step(old(a.Allocations()), call, r, a.Allocations())
  {
    match call {
      case Realloc(ptr, bytes) => r := a.Realloc(ptr, bytes);
      case Free(ptr) =>
        a.Release(ptr);
        r := 0;
      case Store(at, index, value) =>
        a.Store(at, index, value);
        r := 0;
    }
  }

  /** A run: the states between calls, the calls, and their answers. */
  ghost predicate Run(states: seq<Allocations>, calls: seq<Call>, answers: seq<int>) {
    && |states| == |calls| + 1 && |answers| == |calls|
    && forall i {:trigger calls[i]} :: 0 <= i < |calls| ==>
         Legal(states[i], calls[i]) && Step(states[i], calls[i], answers[i], states[i + 1])
  }

  ghost predicate Touches(call: Call, p: int) {
    match call
    case Init(_) => true
    case Realloc(ptr, _) => ptr == p
    case Free(ptr) => ptr == p
    case Store(at, _, _) => at == p
    case _ => false
  }

  /** Over any run, an allocation that no call frees, reallocates or stores to stays live
      with the same bytes, and no call hands its pointer out again, unless the allocator is
      set up anew. */
  lemma {:induction false} UntouchedSurvives(states: seq<Allocations>, calls: seq<Call>, answers: seq<int>, p: int)
    requires Run(states, calls, answers) && p in states[0] && p != 0
    requires forall i :: 0 <= i < |calls| ==> !Touches(calls[i], p)
    ensures p in states[|calls|] && states[|calls|][p] == states[0][p]
    ensures forall i :: 0 <= i < |calls| ==> answers[i] != p
  {
    if |calls| > 0 {
      var n := |calls| - 1;
      assert Run(states[..n + 1], calls[..n], answers[..n]);
      UntouchedSurvives(states[..n + 1], calls[..n], answers[..n], p);
      assert Legal(states[n], calls[n]) && Step(states[n], calls[n], answers[n], states[n + 1]);
      StepKeeps(states[n], calls[n], answers[n], states[n + 1], p);
    }
  }

  lemma StepKeeps(live: Allocations, call: Call, r: int, live': Allocations, p: int)
    requires Step(live, call, r, live') && p in live && p != 0 && !Touches(call, p)
    ensures p in live' && live'[p] == live[p]
    ensures r != p
  {
    match call {
      case Realloc(ptr, bytes) =>
        assert p in live - {ptr};
        if !(ptr != 0 && bytes == 0) && !(r == 0 && live' == live) {
          assert p in live' - {r};
        }
      case Malloc(bytes) =>
        if !(r == 0 && live' == live) {
          assert p in live' - {r};
        }
      case Calloc(count, each) =>
        if !(r == 0 && live' == live) {
          assert p in live' - {r};
        }
      case AlignedAlloc(alignment, bytes) =>
        if !(r == 0 && live' == live) {
          assert p in live' - {r};
        }
      case PosixMemalign(given, alignment, bytes) =>
        if !(r == 0 && live' == live) {
          assert p in live' - {r};
        }
      case Free(_) =>
      case Store(_, _, _) =>
    }
  }

  // ---- whole programs ---------------------------------------------------------------

  /** A program: its next call, given the answers so far. */
  type Program = seq<int> -> Call

  /** The next `n` calls are legal, whatever the answers. */
  ghost predicate LegalProgram(live: Allocations, program: Program, answers: seq<int>, n: nat)
    decreases n
  {
    n == 0 ||
    (&& Legal(live, program(answers))
     && forall r, live' :: Step(live, program(answers), r, live') ==>
          LegalProgram(live', program, answers + [r], n - 1))
  }

  /** The run that a program makes. */
  ghost predicate Plays(program: Program, states: seq<Allocations>, calls: seq<Call>, answers: seq<int>) {
    Run(states, calls, answers) && forall i :: 0 <= i < |calls| ==> calls[i] == program(answers[..i])
  }

  /** The program has made some of its `n` calls, and the rest will be legal. */
  ghost predicate Midway(live: Allocations, program: Program, n: nat, states: seq<Allocations>, calls: seq<Call>,
                         answers: seq<int>) {
    && |calls| <= n && Plays(program, states, calls, answers) && states[|calls|] == live
    && LegalProgram(live, program, answers, n - |calls|)
  }

  lemma MidwayOn(live: Allocations, program: Program, n: nat, states: seq<Allocations>, calls: seq<Call>,
                 answers: seq<int>, r: int, live': Allocations)
    requires Midway(live, program, n, states, calls, answers) && |calls| < n
    ensures Legal(live, program(answers))
    ensures Step(live, program(answers), r, live') ==>
              Midway(live', program, n, states + [live'], calls + [program(answers)], answers + [r])
  {
    if Step(live, program(answers), r, live') {
      PlaysOn(program, states, calls, answers, program(answers), r, live');
    }
  }

  /** The next call of the program. */
  method PlayNext(a: A.Allocator, program: Program, ghost n: nat, ghost states: seq<Allocations>,
                  ghost calls: seq<Call>, answers: seq<int>)
    returns (call: Call, r: int)
    requires a.Valid() && Midway(a.Allocations(), program, n, states, calls, answers) && |calls| < n
    modifies a
    ensures a.Valid() && call == program(answers)
    ensures Midway(a.Allocations(), program, n, states + [a.Allocations()], calls + [call], answers + [r])
  {
    call := program(answers);
    ghost var live := a.Allocations();
    MidwayOn(live, program, n, states, calls, answers, 0, live);
    r := Execute(a, call);
    MidwayOn(live, program, n, states, calls, answers, r, a.Allocations());
  }

  /** Any legal program on any valid allocator makes a run of the map. */
  method Play(a: A.Allocator, program: Program, n: nat)
    returns (calls: seq<Call>, answers: seq<int>, ghost states: seq<Allocations>)
    requires a.Valid() && LegalProgram(a.Allocations(), program, [], n)
    modifies a
    ensures a.Valid() && Plays(program, states, calls, answers) && |calls| == n
    ensures states[0] == old(a.Allocations()) && states[n] == a.Allocations()
    ensures forall p :: p in states[0] && p != 0 && Spared(calls, p) ==>
              p in states[n] && states[n][p] == states[0][p] && p !in answers
  {
    calls, answers, states := [], [], [a.Allocations()];
    while |calls| < n
      invariant a.Valid() && Midway(a.Allocations(), program, n, states, calls, answers)
      invariant states[0] == old(a.Allocations())
      decreases n - |calls|
    {
      var call, r := PlayNext(a, program, n, states, calls, answers);
      calls, answers, states := calls + [call], answers + [r], states + [a.Allocations()];
    }
    AllSpared(states, calls, answers);
  }

  lemma PlaysOn(program: Program, states: seq<Allocations>, calls: seq<Call>, answers: seq<int>, call: Call, r: int,
                live: Allocations)
    requires Plays(program, states, calls, answers) && call == program(answers)
    requires Legal(states[|calls|], call) && Step(states[|calls|], call, r, live)
    ensures Plays(program, states + [live], calls + [call], answers + [r])
  {
    var calls', answers' := calls + [call], answers + [r];
    forall i | 0 <= i < |calls'|
      ensures calls'[i] == program(answers'[..i])
    {
      assert answers'[..i] == answers[..i];
    }
    assert answers[..|calls|] == answers;
  }

  /** No call touches the allocation. */
  ghost predicate Spared(calls: seq<Call>, p: int) {
    forall i :: 0 <= i < |calls| ==> !Touches(calls[i], p)
  }

  lemma AllSpared(states: seq<Allocations>, calls: seq<Call>, answers: seq<int>)
    requires Run(states, calls, answers)
    ensures forall p :: p in states[0] && p != 0 && Spared(calls, p) ==>
              p in states[|calls|] && states[|calls|][p] == states[0][p] && p !in answers
  {
    forall p | p in states[0] && p != 0 && Spared(calls, p)
      ensures p in states[|calls|] && states[|calls|][p] == states[0][p] && p !in answers
    {
      UntouchedSurvives(states, calls, answers, p);
    }
  }
}
