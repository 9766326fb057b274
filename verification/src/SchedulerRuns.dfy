/** Scheduling over whole runs: turn after turn, the active process makes its calls, time
    passes and descriptors become ready, and the scheduler chooses the next process. */
module SchedulerRuns {
  import opened Processes
  import opened ProcessTable
  import opened Scheduler
  import P = ProcessRuns

  // ---- what happens in a turn ------------------------------------------------------

  /** A call on the process table, the active process beginning a wait, the clock of a process
      moving, or what its wait is for becoming ready or not. */
  datatype Action =
    | Call(call: P.Call)
    | Sleep(reason: Reason, waitPid: int, wait: Wait)
    | Clock(slot: nat, now: u64)
    | Descriptor(slot: nat, ready: bool)

  predicate LegalAt(a: P.State, action: Action) {
    match action
    case Call(call) => P.LegalAt(a, call)
    case Sleep(_, _, _) => true
    case Clock(slot, _) => slot < PROCESS_MAX && a.table[slot].used
    case Descriptor(slot, _) => slot < PROCESS_MAX && a.table[slot].used
  }

  function Asleep(p: Process, reason: Reason, waitPid: int, wait: Wait): Process {
    p.(reason := reason, waitPid := waitPid, kernel := p.kernel.(wait := wait), state := BrowserBlocked)
  }

  function AtTime(p: Process, now: u64): Process {
    p.(kernel := p.kernel.(now := now))
  }

  function Primed(p: Process, ready: bool): Process {
    p.(kernel := p.kernel.(wait := p.kernel.wait.(ready := ready)))
  }

  ghost predicate Sleeps(a: P.State, reason: Reason, waitPid: int, wait: Wait, b: P.State) {
    exists slot ::
      && Holds(a.table, slot, a.active)
      && b == a.(table := a.table[slot := Asleep(a.table[slot], reason, waitPid, wait)])
  }

  /** The effect of an action that is legal. */
  ghost predicate Effect(a: P.State, action: Action, b: P.State)
    requires LegalAt(a, action)
  {
    match action
    case Call(call) => P.Effect(a, call, b)
    case Sleep(reason, waitPid, wait) => Sleeps(a, reason, waitPid, wait, b)
    case Clock(slot, now) => b == a.(table := a.table[slot := AtTime(a.table[slot], now)])
    case Descriptor(slot, ready) => b == a.(table := a.table[slot := Primed(a.table[slot], ready)])
  }

  /** An action after which the active process is in the slot it was in. */
  ghost predicate Steady(action: Action) {
    action.Call? ==> P.Steady(action.call)
  }

  /** A process waits or learns something, and is the process it was. */
  method Alter(s: Store, slot: int, p: Process)
    requires P.Sound(s) && 0 <= slot < PROCESS_MAX && s.processes[slot].used
    requires p == s.processes[slot].(reason := p.reason, waitPid := p.waitPid, kernel := p.kernel, state := p.state)
    modifies s
    ensures P.Sound(s) && P.Now(s) == old(P.Now(s)).(table := old(s.processes)[slot := p])
    ensures P.StaysActive(old(s.processes), old(s.activePid), s.processes, s.activePid)
  {
    s.Amend(slot, p);
  }

  method Perform(s: Store, action: Action)
    requires P.Sound(s) && LegalAt(P.Now(s), action)
    modifies s
    ensures P.Sound(s) && Effect(old(P.Now(s)), action, P.Now(s))
    ensures Steady(action) ==> P.StaysActive(old(s.processes), old(s.activePid), s.processes, s.activePid)
  {
    match action {
      case Call(call) =>
        var _ := P.Step(s, call, []);
      case Sleep(reason, waitPid, wait) =>
        var slot := s.ActiveProcess();
        Alter(s, slot, Asleep(s.processes[slot], reason, waitPid, wait));
      case Clock(slot, now) =>
        Alter(s, slot, AtTime(s.processes[slot], now));
      case Descriptor(slot, ready) =>
        Alter(s, slot, Primed(s.processes[slot], ready));
    }
  }

  ghost predicate AllSteady(turn: seq<Action>) {
    forall action :: action in turn ==> Steady(action)
  }

  ghost predicate Leads(a: P.State, action: Action, b: P.State) {
    LegalAt(a, action) && Effect(a, action, b)
  }

  ghost function Last(steps: seq<P.State>): P.State
    requires |steps| > 0
  {
    steps[|steps| - 1]
  }

  /** The states of a turn: it takes its actions up to the first that is not legal. */
  ghost predicate TurnTrace(steps: seq<P.State>, turn: seq<Action>) {
    && 0 < |steps| <= |turn| + 1
    && (forall j :: 0 <= j < |steps| - 1 ==> Leads(steps[j], turn[j], steps[j + 1]))
    && (|steps| <= |turn| ==> !LegalAt(Last(steps), turn[|steps| - 1]))
  }

  method Turn(s: Store, turn: seq<Action>) returns (ghost steps: seq<P.State>)
    requires P.Sound(s)
    modifies s
    ensures P.Sound(s)
    ensures TurnTrace(steps, turn) && steps[0] == old(P.Now(s)) && Last(steps) == P.Now(s)
    ensures AllSteady(turn) ==> P.StaysActive(old(s.processes), old(s.activePid), s.processes, s.activePid)
  {
    steps := [P.Now(s)];
    var n := 0;
    while n < |turn| && LegalAt(P.Now(s), turn[n])
      invariant 0 <= n <= |turn| && P.Sound(s)
      invariant Taken(steps, turn, n) && steps[0] == old(P.Now(s)) && steps[n] == P.Now(s)
      invariant AllSteady(turn) ==> P.StaysActive(old(s.processes), old(s.activePid), s.processes, s.activePid)
    {
      assert turn[n] in turn;
      Perform(s, turn[n]);
      TakenNext(steps, turn, n, P.Now(s));
      steps := steps + [P.Now(s)];
      n := n + 1;
    }
  }

  /** The first `n` actions led through these states. */
  ghost predicate Taken(steps: seq<P.State>, turn: seq<Action>, n: nat) {
    n <= |turn| && |steps| == n + 1 && forall j :: 0 <= j < n ==> Leads(steps[j], turn[j], steps[j + 1])
  }

  lemma TakenNext(steps: seq<P.State>, turn: seq<Action>, n: nat, next: P.State)
    requires n < |turn| && Taken(steps, turn, n) && Leads(steps[n], turn[n], next)
    ensures Taken(steps + [next], turn, n + 1)
  {
    var more := steps + [next];
    forall j | 0 <= j < n + 1
      ensures Leads(more[j], turn[j], more[j + 1])
    {
      if j < n {
        assert more[j] == steps[j] && more[j + 1] == steps[j + 1];
      }
    }
  }

  // ---- one call of the scheduler -----------------------------------------------------

  /** The scheduler chose `pick`, the first slot able to run after that of the active process. */
  ghost predicate Chooses(a: P.State, current: int, pick: int, b: P.State) {
    && Holds(a.table, current, a.active) && FirstToRun(a.table, Start(current, false), pick)
    && b == a.(table := b.table, active := a.table[pick].pid)
    && b.table[pick] == Resumed(a.table[pick], Rearms(a.table[pick])) && OthersPolled(a.table, b.table, pick)
  }

  /** Nothing could run: the scheduler published a wait, if there was one. */
  ghost predicate Stops(a: P.State, current: int, slot: int, b: P.State) {
    && Holds(a.table, current, a.active) && (forall i :: !Runs(a.table, i)) && OthersPolled(a.table, b.table, slot)
    && if exists i :: WaitsAt(a.table, i)
       then Published(a.table, Start(current, false), slot) && 0 <= slot < PROCESS_MAX
            && b == a.(table := b.table, active := a.table[slot].pid)
            && b.table[slot] == Poll(a.table[slot]).(state := BrowserBlocked)
            && Foremost(b.table, slot) && NoneDue(b.table)
       else slot < 0 && b == a.(table := b.table)
  }

  method Ask(s: Store) returns (ran: bool, slot: int, ghost current: int)
    requires s.Valid()
    modifies s`processes, s`activePid
    ensures s.Valid() && OthersPolled(old(s.processes), s.processes, slot)
    ensures 0 <= slot < PROCESS_MAX ==>
              && s.processes[slot].used == old(s.processes)[slot].used
              && s.processes[slot].pid == old(s.processes)[slot].pid
    ensures if ran then Chooses(old(P.Now(s)), current, slot, P.Now(s))
            else Stops(old(P.Now(s)), current, slot, P.Now(s))
  {
    var r, reason;
    ghost var start;
    r, slot, reason, current, start := Schedule(s, false, true);
    ran := r == 1;
  }

  method Choose(s: Store) returns (ran: bool, slot: int, ghost current: int)
    requires P.Sound(s)
    modifies s`processes, s`activePid
    ensures P.Sound(s)
    ensures ran ==> Chooses(old(P.Now(s)), current, slot, P.Now(s)) && Holds(s.processes, slot, s.activePid)
    ensures !ran ==> Stops(old(P.Now(s)), current, slot, P.Now(s))
  {
    ran, slot, current := Ask(s);
    StillBelow(old(s.processes), s.processes, slot, s.ledger, s.nextPid);
  }

  lemma StillBelow(ps: Table, ps': Table, slot: int, l: Ledger, next: int)
    requires Below(ps, l, next) && OthersPolled(ps, ps', slot)
    requires 0 <= slot < PROCESS_MAX ==> ps'[slot].used == ps[slot].used && ps'[slot].pid == ps[slot].pid
    ensures Below(ps', l, next)
  {
  }

  // ---- runs --------------------------------------------------------------------------

  /** A turn and the call of the scheduler after it: the states of the turn, the slot of the
      process then active, the slot chosen, and the state left. */
  datatype Round = Round(steps: seq<P.State>, current: int, pick: int, after: P.State)

  ghost predicate RoundOf(r: Round, turn: seq<Action>) {
    TurnTrace(r.steps, turn) && Chooses(Left(r), r.current, r.pick, r.after)
  }

  /** The state the turn leaves to the scheduler. */
  ghost function Left(r: Round): P.State
    requires |r.steps| > 0
  {
    Last(r.steps)
  }

  /** The state that round `k` begins in, or that the rounds end in. */
  ghost function Begins(first: P.State, rounds: seq<Round>, k: nat): P.State
    requires k <= |rounds|
  {
    if k == 0 then first else rounds[k - 1].after
  }

  /** Round `k` takes its turn, from where the round before ended; if the turn does not switch
      processes, the process chosen by that round is still active. */
  ghost predicate RoundAt(first: P.State, rounds: seq<Round>, turns: seq<seq<Action>>, k: nat)
    requires k < |rounds| <= |turns|
  {
    && RoundOf(rounds[k], turns[k]) && rounds[k].steps[0] == Begins(first, rounds, k)
    && (k > 0 && AllSteady(turns[k]) ==> rounds[k].current == rounds[k - 1].pick)
  }

  ghost predicate RunTrace(first: P.State, rounds: seq<Round>, turns: seq<seq<Action>>) {
    |rounds| <= |turns| && forall k :: 0 <= k < |rounds| ==> RoundAt(first, rounds, turns, k)
  }

  /** A turn after which nothing can run, and the state the scheduler leaves. */
  ghost predicate Halts(first: P.State, steps: seq<P.State>, turn: seq<Action>, last: P.State) {
    && TurnTrace(steps, turn) && steps[0] == first
    && exists current, slot :: Stops(Last(steps), current, slot, last)
  }

  /** The run ends after all its turns, or after the first that leaves nothing to run. */
  ghost predicate Ends(first: P.State, rounds: seq<Round>, turns: seq<seq<Action>>, end: seq<P.State>, last: P.State)
    requires |rounds| <= |turns|
  {
    if |rounds| == |turns| then last == Begins(first, rounds, |rounds|)
    else Halts(Begins(first, rounds, |rounds|), end, turns[|rounds|], last)
  }

  ghost function Picks(rounds: seq<Round>): seq<int> {
    seq(|rounds|, k requires 0 <= k < |rounds| => rounds[k].pick)
  }

  ghost function Currents(rounds: seq<Round>): seq<int> {
    seq(|rounds|, k requires 0 <= k < |rounds| => rounds[k].current)
  }

  lemma RunTraceGrows(first: P.State, rounds: seq<Round>, turns: seq<seq<Action>>, r: Round)
    requires RunTrace(first, rounds, turns) && |rounds| < |turns|
    requires RoundAt(first, rounds + [r], turns, |rounds|)
    ensures RunTrace(first, rounds + [r], turns)
  {
    var more := rounds + [r];
    forall k | 0 <= k < |more|
      ensures RoundAt(first, more, turns, k)
    {
      if k < |rounds| {
        assert RoundAt(first, rounds, turns, k);
      }
    }
  }

  /** Turn after turn, until nothing can run. Every round begins in the state the one before
      left, takes the actions of its turn and ends with a call of the scheduler. A process that
      stays able to run is chosen within sixteen rounds if no turn switches processes, or if
      none leaves the active process past it. */
  method Rounds(s: Store, turns: seq<seq<Action>>)
    returns (picks: seq<int>, ghost rounds: seq<Round>, ghost end: seq<P.State>)
    requires P.Sound(s)
    modifies s
    ensures P.Sound(s) && RunTrace(old(P.Now(s)), rounds, turns) && picks == Picks(rounds)
    ensures Ends(old(P.Now(s)), rounds, turns, end, P.Now(s))
    ensures forall i :: |picks| >= PROCESS_MAX && StaysAble(rounds, i) && Unpassed(rounds, turns, i) ==>
              i in picks[..PROCESS_MAX]
  {
    picks, rounds, end := [], [], [];
    while |picks| < |turns|
      invariant P.Sound(s) && RunTrace(old(P.Now(s)), rounds, turns) && picks == Picks(rounds)
      invariant P.Now(s) == Begins(old(P.Now(s)), rounds, |rounds|)
      invariant |rounds| > 0 ==> Holds(s.processes, rounds[|rounds| - 1].pick, s.activePid)
      decreases |turns| - |picks|
    {
      var ran, slot;
      ran, slot, rounds, end := NextRound(s, old(P.Now(s)), turns, |picks|, rounds);
      if !ran {
        break;
      }
      picks := picks + [slot];
    }
    FairToAll(old(P.Now(s)), rounds, turns);
  }

  /** One more round, or the turn after which nothing can run. */
  method NextRound(s: Store, ghost first: P.State, turns: seq<seq<Action>>, n: nat, ghost rounds: seq<Round>)
    returns (ran: bool, slot: int, ghost rounds': seq<Round>, ghost end: seq<P.State>)
    requires n == |rounds| < |turns|
    requires P.Sound(s) && RunTrace(first, rounds, turns) && P.Now(s) == Begins(first, rounds, |rounds|)
    requires |rounds| > 0 ==> Holds(s.processes, rounds[|rounds| - 1].pick, s.activePid)
    modifies s
    ensures P.Sound(s) && RunTrace(first, rounds', turns)
    ensures ran ==>
              && Picks(rounds') == Picks(rounds) + [slot] && P.Now(s) == Begins(first, rounds', |rounds'|)
              && |rounds'| == |rounds| + 1 && rounds'[|rounds|].pick == slot
              && Holds(s.processes, slot, s.activePid)
    ensures !ran ==> rounds' == rounds && Halts(Begins(first, rounds, n), end, turns[n], P.Now(s))
  {
    rounds' := rounds;
    ghost var current;
    ran, slot, end, current := OneRound(s, turns[n]);
    if ran {
      ghost var r := Round(end, current, slot, P.Now(s));
      RunTraceGrows(first, rounds, turns, r);
      rounds' := rounds + [r];
    }
  }

  method OneRound(s: Store, turn: seq<Action>)
    returns (ran: bool, slot: int, ghost steps: seq<P.State>, ghost current: int)
    requires P.Sound(s)
    modifies s
    ensures P.Sound(s) && (ran ==> Holds(s.processes, slot, s.activePid))
    ensures ran ==> RoundOf(Round(steps, current, slot, P.Now(s)), turn) && steps[0] == old(P.Now(s))
    ensures !ran ==> Halts(old(P.Now(s)), steps, turn, P.Now(s))
    ensures ran && AllSteady(turn) ==> forall i :: old(Holds(s.processes, i, s.activePid)) ==> i == current
  {
    steps := Turn(s, turn);
    ghost var ps := s.processes;
    assert Distinct(ps);
    ran, slot, current := Choose(s);
  }

  // ---- fairness ----------------------------------------------------------------------

  /** Process `i` is able to run whenever the scheduler is called. */
  ghost predicate StaysAble(rounds: seq<Round>, i: int) {
    forall k :: 0 <= k < |rounds| ==> |rounds[k].steps| > 0 && Runs(Left(rounds[k]).table, i)
  }

  /** No turn switches processes, or none leaves the active process past `i`. */
  ghost predicate Unpassed(rounds: seq<Round>, turns: seq<seq<Action>>, i: int) {
    (forall k :: 0 <= k < |turns| ==> AllSteady(turns[k])) || NeverPast(Currents(rounds), Picks(rounds), i)
  }

  /** Such a process is chosen within sixteen rounds, and no other twice before it. */
  lemma RunIsFair(first: P.State, rounds: seq<Round>, turns: seq<seq<Action>>, i: int)
    requires RunTrace(first, rounds, turns) && StaysAble(rounds, i) && Unpassed(rounds, turns, i)
    ensures |rounds| >= PROCESS_MAX ==> i in Picks(rounds)[..PROCESS_MAX]
    ensures forall a, b :: 0 <= a < b < |rounds| && i !in Picks(rounds)[..b + 1] ==>
              Picks(rounds)[a] != Picks(rounds)[b]
  {
    var tables: seq<Table> :=
      seq(|rounds|, k requires 0 <= k < |rounds| && |rounds[k].steps| > 0 => Left(rounds[k]).table);
    forall k | 0 <= k < |rounds|
      ensures 0 <= Currents(rounds)[k] < PROCESS_MAX
      ensures FirstToRun(tables[k], Start(Currents(rounds)[k], false), Picks(rounds)[k]) && Runs(tables[k], i)
      ensures k > 0 && AllSteady(turns[k]) ==> Currents(rounds)[k] == Picks(rounds)[k - 1]
    {
      assert RoundAt(first, rounds, turns, k);
    }
    assert NeverPast(Currents(rounds), Picks(rounds), i);
    Fair(tables, Currents(rounds), Picks(rounds), i);
  }

  lemma FairToAll(first: P.State, rounds: seq<Round>, turns: seq<seq<Action>>)
    requires RunTrace(first, rounds, turns)
    ensures forall i :: |rounds| >= PROCESS_MAX && StaysAble(rounds, i) && Unpassed(rounds, turns, i) ==>
              i in Picks(rounds)[..PROCESS_MAX]
  {
    forall i | |rounds| >= PROCESS_MAX && StaysAble(rounds, i) && Unpassed(rounds, turns, i)
      ensures i in Picks(rounds)[..PROCESS_MAX]
    {
      RunIsFair(first, rounds, turns, i);
    }
  }

  // ---- passing over ------------------------------------------------------------------

  ghost predicate Able(p: Process, pid: int) {
    p.used && p.pid == pid && !p.zombie && p.hasEngine && !p.hasHandler && p.reason == NoWait
  }

  /** Processes 1 and 2, both able to run, in the first two slots, and nothing from slot `n` on. */
  ghost predicate Both(a: P.State, n: nat) {
    && a.count == n && !a.hasLimit && 2 < a.next
    && Able(a.table[0], 1) && Able(a.table[1], 2)
    && forall i :: n <= i < PROCESS_MAX ==> !a.table[i].used
  }

  /** The two alone, the first one active. */
  ghost predicate Pair(a: P.State) {
    Both(a, 2) && a.active == 1
  }

  /** The two and the last process forked, a child of the first, in slot 2. */
  ghost predicate Trio(a: P.State, zombie: bool) {
    && Both(a, 3) && 3 < a.next
    && Holds(a.table, 2, a.next - 1) && a.table[2].ppid == 1 && a.table[2].zombie == zombie
  }

  /** The first process is active, and its last child gone or a zombie. */
  ghost predicate Home(a: P.State) {
    Pair(a) || (Trio(a, true) && a.active == 1)
  }

  /** What happens in a turn: the first process collects its last child and forks another, whose
      pid is `pid`; the child becomes active and exits. */
  function ForkTurn(pid: int): seq<Action> {
    [Call(P.Wait(pid - 1, true, 0)), Call(P.Fork(true, true, true)), Call(P.SetActive(pid)), Call(P.Exit(0))]
  }

  lemma Collects(a: P.State, b: P.State)
    requires Home(a) && P.Waits(a, a.next - 1, 0, b)
    ensures Pair(b) && b.next == a.next
  {
    if !Pair(a) {
      assert WaitsFor(a.table, 1, a.next - 1, 2);
    }
  }

  lemma ForksChild(a: P.State, b: P.State)
    requires Pair(a) && a.next < I32_MAX && P.Forks(a, true, true, true, b)
    ensures Trio(b, false) && b.next == a.next + 1
  {
    assert !a.table[2].used;
  }

  lemma SwitchesToChild(a: P.State, b: P.State)
    requires Trio(a, false) && P.Switches(a, a.next - 1, b)
    ensures Trio(b, false) && b.active == b.next - 1 && b.next == a.next
  {
    assert Holds(a.table, 2, a.next - 1);
  }

  lemma ChildExits(a: P.State, b: P.State)
    requires Trio(a, false) && a.active == a.next - 1 && P.Exits(a, 0, b)
    ensures Trio(b, true) && b.active == b.next - 1 && b.next == a.next
  {
  }

  lemma ForkTurnTaken(steps: seq<P.State>, pid: int)
    requires TurnTrace(steps, ForkTurn(pid)) && Home(steps[0]) && pid == steps[0].next < I32_MAX
    ensures |steps| == 5 && Trio(Last(steps), true) && Last(steps).active == pid && Last(steps).next == pid + 1
  {
    var turn := ForkTurn(pid);
    assert |steps| > 1 && Leads(steps[0], turn[0], steps[1]);
    Collects(steps[0], steps[1]);
    assert |steps| > 2 && Leads(steps[1], turn[1], steps[2]);
    ForksChild(steps[1], steps[2]);
    assert |steps| > 3 && Leads(steps[2], turn[2], steps[3]);
    SwitchesToChild(steps[2], steps[3]);
    assert |steps| > 4 && Leads(steps[3], turn[3], steps[4]);
    ChildExits(steps[3], steps[4]);
  }

  lemma BothRun(a: P.State)
    requires Trio(a, true)
    ensures Runs(a.table, 0) && Runs(a.table, 1) && forall i :: Runs(a.table, i) ==> i == 0 || i == 1
  {
  }

  /** The scan goes on from slot 2 and finds slot 0 before slot 1. */
  lemma ChoosesFirst(a: P.State, current: int, pick: int, b: P.State)
    requires Trio(a, true) && a.active == a.next - 1 && Chooses(a, current, pick, b)
    ensures current == 2 && pick == 0 && Home(b) && b.next == a.next
  {
    BothRun(a);
  }

  /** In round `k` process 1 forked `pid`, which is active, a zombie in slot 2, when the
      scheduler is called; it passes over slot 1 and chooses slot 0. */
  ghost predicate PassesOver(r: Round, pid: int) {
    && |r.steps| == 5 && Trio(Left(r), true) && Left(r).active == pid && Holds(Left(r).table, 2, pid)
    && Runs(Left(r).table, 1) && r.current == 2 && r.pick == 0
  }

  function ForkTurns(pid: int, n: nat): seq<seq<Action>> {
    seq(n, k => ForkTurn(pid + k))
  }

  /** However many turns there are, the scheduler always finds slot 0. */
  lemma {:induction false} PassesOverAt(first: P.State, rounds: seq<Round>, n: nat, k: nat)
    requires Home(first) && first.next + n < I32_MAX && RunTrace(first, rounds, ForkTurns(first.next, n))
    requires k <= |rounds|
    ensures Home(Begins(first, rounds, k)) && Begins(first, rounds, k).next == first.next + k
    ensures k > 0 ==> PassesOver(rounds[k - 1], first.next + k - 1)
  {
    if k > 0 {
      PassesOverAt(first, rounds, n, k - 1);
      var r := rounds[k - 1];
      assert RoundAt(first, rounds, ForkTurns(first.next, n), k - 1);
      ForkTurnTaken(r.steps, first.next + k - 1);
      BothRun(Left(r));
      ChoosesFirst(Left(r), r.current, r.pick, r.after);
    }
  }

  lemma NeverHalts(a: P.State, steps: seq<P.State>, last: P.State)
    requires Home(a) && a.next < I32_MAX
    ensures !Halts(a, steps, ForkTurn(a.next), last)
  {
    if TurnTrace(steps, ForkTurn(a.next)) && steps[0] == a {
      ForkTurnTaken(steps, a.next);
      BothRun(Last(steps));
    }
  }

  lemma AlwaysPassesOver(first: P.State, rounds: seq<Round>, n: nat, end: seq<P.State>, last: P.State)
    requires Home(first) && first.next + n < I32_MAX && RunTrace(first, rounds, ForkTurns(first.next, n))
    requires Ends(first, rounds, ForkTurns(first.next, n), end, last)
    ensures |rounds| == n && last == Begins(first, rounds, n) && Home(last) && last.next == first.next + n
    ensures forall k :: 0 <= k < n ==> PassesOver(rounds[k], first.next + k)
    ensures StaysAble(rounds, 1) && 1 !in Picks(rounds)
  {
    forall k | 0 <= k < |rounds|
      ensures PassesOver(rounds[k], first.next + k)
    {
      PassesOverAt(first, rounds, n, k + 1);
    }
    PassesOverAt(first, rounds, n, |rounds|);
    NeverHalts(Begins(first, rounds, |rounds|), end, last);
  }

  /** The first process collects its last child. */
  method Collect(s: Store)
    requires P.Sound(s) && Home(P.Now(s))
    modifies s
    ensures P.Sound(s) && Pair(P.Now(s)) && s.nextPid == old(s.nextPid)
    ensures Leads(old(P.Now(s)), Call(P.Wait(s.nextPid - 1, true, 0)), P.Now(s))
  {
    Perform(s, Call(P.Wait(s.nextPid - 1, true, 0)));
    Collects(old(P.Now(s)), P.Now(s));
  }

  /** A process that forks and waits, turn after turn, keeps the other from being chosen: a fork
      makes the child active, the scan goes on from the child's slot, and the parent is found
      before the other process, which could run all the time. In the end it collects its last
      child, and the two are alone again. */
  method PassedOver(s: Store, n: nat) returns (picks: seq<int>, ghost rounds: seq<Round>)
    requires P.Sound(s) && Pair(P.Now(s)) && s.nextPid + n < I32_MAX
    modifies s
    ensures P.Sound(s) && Pair(P.Now(s)) && s.nextPid == old(s.nextPid) + n
    ensures |rounds| == n && RunTrace(old(P.Now(s)), rounds, ForkTurns(old(s.nextPid), n)) && picks == Picks(rounds)
    ensures Leads(Begins(old(P.Now(s)), rounds, n), Call(P.Wait(s.nextPid - 1, true, 0)), P.Now(s))
    ensures forall k :: 0 <= k < n ==> PassesOver(rounds[k], old(s.nextPid) + k)
    ensures StaysAble(rounds, 1) && 1 !in picks
  {
    ghost var end;
    picks, rounds, end := Rounds(s, ForkTurns(s.nextPid, n));
    AlwaysPassesOver(old(P.Now(s)), rounds, n, end, P.Now(s));
    Collect(s);
  }

  /** Such a pair of processes. */
  method MakePair() returns (s: Store)
    ensures fresh(s) && P.Sound(s) && Pair(P.Now(s)) && s.nextPid == 3
  {
    s := new Store(IDLE);
    s.Amend(0, s.processes[0].(hasEngine := true, hasHandler := false, reason := NoWait));
    var r, pid;
    ghost var slot;
    ghost var ps := s.processes;
    assert !ps[1].used;
    r, pid, slot := s.Fork(true, true, true);
    assert slot == 1;
  }
}
