/** Choosing the next process to run (src/engine/process_driver.c): the first ready one
    after the current slot, or else the wait to hand to the platform. */
module Scheduler {
  import opened Processes
  import opened ProcessTable

  // ---- the cyclic order ------------------------------------------------------------

  /** When the scan that starts at `start` reaches slot `i`. */
  ghost function Position(start: int, i: int): int {
    if i >= start then i - start else i - start + PROCESS_MAX
  }

  /** The slot the scan looks at in its `n`-th step. */
  function Slot(current: int, preferCurrent: bool, n: int): (i: int)
    requires 0 <= current < PROCESS_MAX && 0 <= n < PROCESS_MAX
    ensures 0 <= i < PROCESS_MAX && Position(Start(current, preferCurrent), i) == n
  {
    (current + n + if preferCurrent then 0 else 1) % PROCESS_MAX
  }

  ghost function Start(current: int, preferCurrent: bool): int {
    if preferCurrent then current else if current == PROCESS_MAX - 1 then 0 else current + 1
  }

  // ---- what the scan looks for -----------------------------------------------------

  ghost function Poll(p: Process): Process {
    p.(kernel := AlarmPoll(p.kernel))
  }

  ghost predicate Runs(ps: Table, i: int) {
    0 <= i < PROCESS_MAX && Eligible(ps[i]) && Ready(ps, i)
  }

  /** Slot `i` is the first that can run. */
  ghost predicate FirstToRun(ps: Table, start: int, i: int) {
    Runs(ps, i) && forall j :: Runs(ps, j) ==> Position(start, i) <= Position(start, j)
  }

  /** A timer of `k` goes off at `at`: the time limit of its wait, or an alarm not yet due. */
  ghost predicate Rings(k: Kernel, at: int) {
    || (k.wait.active && k.wait.hasDeadline && k.wait.deadline == at)
    || (k.alarmActive && k.alarmDeadline == at && !AlarmDue(k))
  }

  ghost predicate RingsBy(k: Kernel, at: int) {
    exists t :: t <= at && Rings(k, t)
  }

  /** A timer of `k` goes off before every timer of `l`, if that has any. */
  ghost predicate Precedes(k: Kernel, l: Kernel) {
    exists at :: Rings(k, at) && !RingsBy(l, at)
  }

  /** Slot `i` holds a blocked process whose wait the platform can end. */
  ghost predicate WaitsAt(ps: Table, i: int) {
    && 0 <= i < PROCESS_MAX && ps[i].used && !ps[i].zombie && (ps[i].hasEngine || ps[i].hasHandler)
    && (ps[i].reason == Read || ps[i].reason == Select || (ps[i].reason == WaitPid && RingsBy(ps[i].kernel, U64_MAX)))
  }

  ghost predicate InputAt(ps: Table, i: int) {
    WaitsAt(ps, i) && ps[i].kernel.wait.active && ps[i].kernel.wait.input
  }

  /** Whenever a timer of a waiter among the first `n` goes off, one of slot `i` has; those
      scanned before slot `i` go off after it. */
  ghost predicate Earliest(ps: Table, start: int, n: int, i: int) {
    && WaitsAt(ps, i)
    && forall j :: WaitsAt(ps, j) && Position(start, j) < n ==>
         && (forall at :: Rings(ps[j].kernel, at) ==> RingsBy(ps[i].kernel, at))
         && (Position(start, j) < Position(start, i) ==> Precedes(ps[i].kernel, ps[j].kernel))
  }

  ghost predicate LastInput(ps: Table, start: int, n: int, i: int) {
    InputAt(ps, i) && forall j :: InputAt(ps, j) && Position(start, j) < n ==> Position(start, j) <= Position(start, i)
  }

  /** The wait handed to the platform: the last one for input in scan order, or else the
      one with the earliest deadline. */
  ghost predicate Published(ps: Table, start: int, i: int) {
    if exists j :: InputAt(ps, j) then LastInput(ps, start, PROCESS_MAX, i) else Earliest(ps, start, PROCESS_MAX, i)
  }

  /** The eligible slots among the first `n` have had their alarms polled. */
  ghost predicate PolledUpTo(ps: Table, ps': Table, start: int, n: int) {
    forall i :: 0 <= i < PROCESS_MAX ==>
                  ps'[i] == if Position(start, i) < n && Eligible(ps[i]) then Poll(ps[i]) else ps[i]
  }

  // ---- polling changes no answer ---------------------------------------------------

  lemma PollKeepsChildren(ps: Table, ps': Table, start: int, n: int, ppid: int, w: int)
    requires PolledUpTo(ps, ps', start, n)
    ensures HasChild(ps', ppid, w) == HasChild(ps, ppid, w)
    ensures HasZombie(ps', ppid, w) == HasZombie(ps, ppid, w)
  {
    forall i
      ensures WaitsFor(ps', ppid, w, i) == WaitsFor(ps, ppid, w, i)
      ensures 0 <= i < PROCESS_MAX ==> ps'[i].zombie == ps[i].zombie
    {
    }
    if i :| WaitsFor(ps, ppid, w, i) {
      assert WaitsFor(ps', ppid, w, i);
    }
    if i :| WaitsFor(ps, ppid, w, i) && ps[i].zombie {
      assert WaitsFor(ps', ppid, w, i) && ps'[i].zombie;
    }
  }

  lemma PollKeepsReady(ps: Table, ps': Table, start: int, n: int, i: int)
    requires PolledUpTo(ps, ps', start, n) && 0 <= i < PROCESS_MAX && Position(start, i) >= n
    ensures ps'[i] == ps[i] && (Ready(ps', i) <==> Ready(ps, i))
  {
    PollKeepsChildren(ps, ps', start, n, ps[i].pid, ps[i].waitPid);
  }

  // ---- the scan --------------------------------------------------------------------

  predicate HasDeadline(k: Kernel) {
    (k.wait.active && k.wait.hasDeadline) || k.alarmActive
  }

  function Deadline(k: Kernel): u64 {
    var next: u64 := if k.wait.active && k.wait.hasDeadline then k.wait.deadline else U64_MAX;
    if k.alarmActive && k.alarmDeadline < next then k.alarmDeadline else next
  }

  /** The comparison of the scan, on records that have been polled: the last possible moment
      also stands for no timer at all. */
  predicate Sooner(k: Kernel, l: Kernel) {
    Deadline(k) < Deadline(l) || (Deadline(k) == Deadline(l) && HasDeadline(k) && !HasDeadline(l))
  }

  /** The comparison is exact. */
  lemma SoonerIs(k: Kernel, l: Kernel)
    ensures Sooner(AlarmPoll(k), AlarmPoll(l)) <==> Precedes(k, l)
  {
    var k', l' := AlarmPoll(k), AlarmPoll(l);
    DeadlineIs(k);
    DeadlineIs(l);
    if Sooner(k', l') {
      assert Rings(k, Deadline(k'));
      assert !RingsBy(l, Deadline(k'));
    }
    if at :| Rings(k, at) && !RingsBy(l, at) {
      assert Deadline(k') <= at;
      if HasDeadline(l') {
        assert Rings(l, Deadline(l'));
      }
    }
  }

  lemma DeadlineIs(k: Kernel)
    ensures HasDeadline(AlarmPoll(k)) <==> RingsBy(k, U64_MAX)
    ensures HasDeadline(AlarmPoll(k)) ==> Rings(k, Deadline(AlarmPoll(k)))
    ensures Deadline(AlarmPoll(k)) < U64_MAX ==> HasDeadline(AlarmPoll(k))
    ensures forall at :: Rings(k, at) ==> HasDeadline(AlarmPoll(k)) && Deadline(AlarmPoll(k)) <= at
  {
    if HasDeadline(AlarmPoll(k)) {
      assert Rings(k, Deadline(AlarmPoll(k)));
    }
  }

  ghost predicate Scanned(ps: Table, start: int, n: int, blocked: int, input: int) {
    && (forall i :: Runs(ps, i) ==> Position(start, i) >= n)
    && (if blocked < 0 then forall i :: WaitsAt(ps, i) ==> Position(start, i) >= n
        else Earliest(ps, start, n, blocked) && Position(start, blocked) < n)
    && (if input < 0 then forall i :: InputAt(ps, i) ==> Position(start, i) >= n
        else LastInput(ps, start, n, input) && Position(start, input) < n)
  }

  /** One step of the scan over a slot that cannot run. */
  lemma ScanStep(ps: Table, start: int, n: int, blocked: int, input: int, i: int, blocked': int, input': int)
    requires 0 <= start < PROCESS_MAX && 0 <= i < PROCESS_MAX && Position(start, i) == n
    requires Scanned(ps, start, n, blocked, input) && !Runs(ps, i)
    requires blocked < PROCESS_MAX
    requires blocked' == if WaitsAt(ps, i) && (blocked < 0 || Precedes(ps[i].kernel, ps[blocked].kernel)) then i
                         else blocked
    requires input' == if InputAt(ps, i) then i else input
    ensures Scanned(ps, start, n + 1, blocked', input')
  {
    forall j | 0 <= j < PROCESS_MAX && Position(start, j) == n
      ensures j == i
    {
    }
    assert forall j :: Runs(ps, j) ==> Position(start, j) >= n + 1;
  }

  lemma PolledNext(ps: Table, ps': Table, start: int, n: int, i: int)
    requires 0 <= start < PROCESS_MAX && 0 <= i < PROCESS_MAX && Position(start, i) == n
    requires PolledUpTo(ps, ps', start, n)
    ensures PolledUpTo(ps, if Eligible(ps[i]) then ps'[i := Poll(ps'[i])] else ps', start, n + 1)
  {
  }

  /** The bookkeeping for a slot that cannot run; it and the slot kept so far have been polled. */
  method Consider(ghost was: Table, ps: Table, i: int, blocked: int, input: int) returns (blocked': int, input': int)
    requires 0 <= i < PROCESS_MAX && blocked < PROCESS_MAX
    requires Eligible(was[i]) && ps[i] == Poll(was[i]) && (blocked >= 0 ==> ps[blocked] == Poll(was[blocked]))
    ensures blocked' == if WaitsAt(was, i) && (blocked < 0 || Precedes(was[i].kernel, was[blocked].kernel)) then i
                        else blocked
    ensures input' == if InputAt(was, i) then i else input
  {
    blocked', input' := blocked, input;
    var p := ps[i];
    DeadlineIs(was[i].kernel);
    if p.reason != Read && p.reason != Select
       && !(p.reason == WaitPid && (p.kernel.alarmActive || (p.kernel.wait.active && p.kernel.wait.hasDeadline))) {
      return;
    }
    if p.kernel.wait.active && p.kernel.wait.input {
      input' := i;
    }
    if blocked >= 0 {
      SoonerIs(was[i].kernel, was[blocked].kernel);
    }
    if blocked < 0 || Sooner(p.kernel, ps[blocked].kernel) {
      blocked' := i;
    }
  }

  /** The loop of `process_schedule`: it stops at the first slot that can run. */
  method Scan(ps: Table, current: int, preferCurrent: bool) returns (ready: int, blocked: int, input: int, ps': Table)
    requires 0 <= current < PROCESS_MAX
    ensures ready < 0 ==> Scanned(ps, Start(current, preferCurrent), PROCESS_MAX, blocked, input)
    ensures ready >= 0 ==> FirstToRun(ps, Start(current, preferCurrent), ready)
    ensures PolledUpTo(ps, ps', Start(current, preferCurrent),
                       if ready < 0 then PROCESS_MAX else Position(Start(current, preferCurrent), ready) + 1)
  {
    ghost var start := Start(current, preferCurrent);
    ready, blocked, input, ps' := -1, -1, -1, ps;
    var n := 0;
    while n < PROCESS_MAX
      invariant 0 <= n <= PROCESS_MAX && blocked < PROCESS_MAX
      invariant Scanned(ps, start, n, blocked, input)
      invariant PolledUpTo(ps, ps', start, n)
      invariant blocked >= 0 ==> ps'[blocked] == Poll(ps[blocked])
    {
      var i := Slot(current, preferCurrent, n);
      var runs;
      runs, ps', blocked, input := Look(ps, ps', start, n, i, blocked, input);
      if runs {
        ready := i;
        return;
      }
      n := n + 1;
    }
  }

  /** The body of the loop, at slot `i`. */
  method Look(ghost was: Table, ps: Table, ghost start: int, ghost n: int, i: int, blocked: int, input: int)
    returns (runs: bool, ps': Table, blocked': int, input': int)
    requires 0 <= start < PROCESS_MAX && 0 <= i < PROCESS_MAX && Position(start, i) == n && blocked < PROCESS_MAX
    requires Scanned(was, start, n, blocked, input) && PolledUpTo(was, ps, start, n)
    requires blocked >= 0 ==> ps[blocked] == Poll(was[blocked])
    ensures PolledUpTo(was, ps', start, n + 1)
    ensures runs <==> Runs(was, i)
    ensures !runs ==> Scanned(was, start, n + 1, blocked', input') && blocked' < PROCESS_MAX
    ensures !runs && blocked' >= 0 ==> ps'[blocked'] == Poll(was[blocked'])
  {
    PollKeepsReady(was, ps, start, n, i);
    PolledNext(was, ps, start, n, i);
    runs, ps', blocked', input' := false, ps, blocked, input;
    if ps[i].used && !ps[i].zombie && (ps[i].hasEngine || ps[i].hasHandler) {
      runs, ps' := WaitReady(ps, i);
      if runs {
        return;
      }
      blocked', input' := Consider(was, ps', i, blocked, input);
    }
    ScanStep(was, start, n, blocked, input, i, blocked', input');
  }

  // ---- choosing --------------------------------------------------------------------

  /** A process resumed by the scheduler no longer waits. */
  ghost function Resumed(p: Process, handler: bool): Process {
    Poll(p).(state := Runnable, reason := NoWait, handlerWait := if handler then NoWait else p.handlerWait)
  }

  ghost predicate Rearms(p: Process) {
    p.hasHandler && p.handlerWait != NoWait
  }

  lemma PolledIsProper(ps: Table, ps': Table, l: Ledger, start: int, n: int)
    requires PolledUpTo(ps, ps', start, n) && Distinct(ps) && Proper(ps, l)
    ensures Distinct(ps') && Proper(ps', l)
    ensures Used(ps', PROCESS_MAX) == Used(ps, PROCESS_MAX)
    ensures forall pid :: InUse(ps, pid) ==> InUse(ps', pid)
  {
    forall i | 0 <= i < PROCESS_MAX
      ensures Named(ps'[i]) && Entered(ps'[i], l)
    {
      assert Named(ps[i]) && Entered(ps[i], l);
    }
    UsedSame(ps, ps', PROCESS_MAX);
    forall pid | InUse(ps, pid)
      ensures InUse(ps', pid)
    {
      var i :| Holds(ps, i, pid);
      assert Holds(ps', i, pid);
    }
  }

  /** The slot of the active process; the source keeps the last match. */
  method Current(ps: Table, active: int) returns (current: int)
    ensures 0 <= current < PROCESS_MAX
    ensures InUse(ps, active) ==> Holds(ps, current, active)
  {
    current := 0;
    var i := 0;
    while i < PROCESS_MAX
      invariant 0 <= i <= PROCESS_MAX && 0 <= current < PROCESS_MAX
      invariant (exists j :: j < i && Holds(ps, j, active)) ==> Holds(ps, current, active)
    {
      if ps[i].used && ps[i].pid == active {
        current := i;
      }
      i := i + 1;
    }
  }

  /** Slots other than `slot` are as they were, but for alarms that were polled. */
  ghost predicate OthersPolled(ps: Table, ps': Table, slot: int) {
    forall j :: 0 <= j < PROCESS_MAX && j != slot ==> ps'[j] == ps[j] || ps'[j] == Poll(ps[j])
  }

  /** Nobody waits for input, and whenever a timer of a waiter goes off, one of `slot` has; or
      `slot` waits for input. */
  ghost predicate Foremost(ps: Table, slot: int) {
    || InputAt(ps, slot)
    || (&& (forall j :: !InputAt(ps, j)) && WaitsAt(ps, slot)
        && forall j, at :: WaitsAt(ps, j) && Rings(ps[j].kernel, at) ==> RingsBy(ps[slot].kernel, at))
  }

  /** Every alarm of a slot the scan looked at has gone off if it was due. */
  ghost predicate NoneDue(ps: Table) {
    forall i :: 0 <= i < PROCESS_MAX && Eligible(ps[i]) ==> !AlarmDue(ps[i].kernel)
  }

  lemma PollRings(k: Kernel)
    ensures forall at :: Rings(AlarmPoll(k), at) <==> Rings(k, at)
    ensures !AlarmDue(AlarmPoll(k)) && AlarmPoll(k).wait == k.wait
    ensures forall at :: RingsBy(AlarmPoll(k), at) <==> RingsBy(k, at)
  {
    forall at
      ensures RingsBy(AlarmPoll(k), at) <==> RingsBy(k, at)
    {
      if t :| t <= at && Rings(k, t) {
        assert Rings(AlarmPoll(k), t);
      }
      if t :| t <= at && Rings(AlarmPoll(k), t) {
        assert Rings(k, t);
      }
    }
  }

  /** What was published is still foremost after the alarms were polled. */
  lemma StaysForemost(ps: Table, ps': Table, start: int, slot: int)
    requires 0 <= start < PROCESS_MAX && Published(ps, start, slot) && OthersPolled(ps, ps', slot)
    requires 0 <= slot < PROCESS_MAX && ps'[slot] == Poll(ps[slot]).(state := BrowserBlocked)
    ensures Foremost(ps', slot)
  {
    forall j
      ensures WaitsAt(ps', j) <==> WaitsAt(ps, j)
      ensures InputAt(ps', j) <==> InputAt(ps, j)
      ensures WaitsAt(ps, j) ==> forall at :: RingsBy(ps'[j].kernel, at) <==> RingsBy(ps[j].kernel, at)
      ensures WaitsAt(ps, j) ==> forall at :: Rings(ps'[j].kernel, at) <==> Rings(ps[j].kernel, at)
    {
      if 0 <= j < PROCESS_MAX {
        PollRings(ps[j].kernel);
      }
    }
  }

  /** `process_schedule`; `resumed` says whether a waiting handler can be resumed. */
  method Schedule(s: Store, preferCurrent: bool, resumed: bool)
    returns (r: int, slot: int, reason: Reason, ghost current: int, ghost start: int)
    requires s.Valid()
    modifies s`processes, s`activePid
    ensures s.Valid() && OthersPolled(old(s.processes), s.processes, slot)
    ensures 0 <= slot < PROCESS_MAX ==>
              && s.processes[slot].used == old(s.processes)[slot].used
              && s.processes[slot].pid == old(s.processes)[slot].pid
    ensures old(Holds(s.processes, current, s.activePid)) && start == Start(current, preferCurrent)
    ensures (exists i :: old(Runs(s.processes, i))) ==>
              && old(FirstToRun(s.processes, start, slot))
              && s.activePid == old(s.processes)[slot].pid
              && r == (if Rearms(old(s.processes)[slot]) && !resumed then -1 else 1)
              && (r == 1 ==>
                   s.processes[slot] == Resumed(old(s.processes)[slot], Rearms(old(s.processes)[slot])))
    ensures (forall i :: !old(Runs(s.processes, i))) && (exists i :: old(WaitsAt(s.processes, i))) ==>
              && r == 0
              && old(Published(s.processes, start, slot))
              && s.activePid == old(s.processes)[slot].pid
              && s.processes[slot] == Poll(old(s.processes)[slot]).(state := BrowserBlocked)
              && (reason == Read <==> old(s.processes)[slot].reason == Read) && (reason != Read ==> reason == Select)
              && Foremost(s.processes, slot) && NoneDue(s.processes)
    ensures (forall i :: !old(Runs(s.processes, i))) && (forall i :: !old(WaitsAt(s.processes, i))) ==>
              r == -1 && slot < 0 && s.activePid == old(s.activePid)
  {
    reason := NoWait;
    var ready;
    ready, slot, current, start := Survey(s, preferCurrent);
    if ready {
      r := Resume(s, slot, resumed);
      return;
    }
    if slot < 0 {
      return -1, slot, reason, current, start;
    }
    assert exists i :: old(WaitsAt(s.processes, i));
    reason := Publish(s, slot, old(s.processes), start);
    r := 0;
  }

  /** Scan the table, polling alarms, and settle on a slot. */
  method Survey(s: Store, preferCurrent: bool) returns (ready: bool, slot: int, ghost current: int, ghost start: int)
    requires s.Valid()
    modifies s`processes
    ensures s.Valid() && OthersPolled(old(s.processes), s.processes, -1)
    ensures old(Holds(s.processes, current, s.activePid)) && start == Start(current, preferCurrent)
    ensures ready <==> exists i :: old(Runs(s.processes, i))
    ensures ready ==> old(FirstToRun(s.processes, start, slot))
    ensures !ready ==> (slot < 0 <==> forall i :: !old(WaitsAt(s.processes, i)))
    ensures !ready && slot >= 0 ==> old(Published(s.processes, start, slot)) && NoneDue(s.processes)
    ensures ready || slot >= 0 ==>
              && 0 <= slot < PROCESS_MAX && Eligible(s.processes[slot])
              && s.processes[slot] == Poll(old(s.processes)[slot])
  {
    var now := Current(s.processes, s.activePid);
    current, start := now, Start(now, preferCurrent);
    var found, blocked, input, ps' := Scan(s.processes, now, preferCurrent);
    ready := found >= 0;
    slot := if ready then found else if input >= 0 then input else blocked;
    if !ready {
      ScanSettles(s.processes, start, blocked, input);
    }
    Install(s, ps', start, if ready then Position(start, found) + 1 else PROCESS_MAX);
    if !ready {
      AllPolled(old(s.processes), s.processes, start);
    }
  }

  lemma AllPolled(ps: Table, ps': Table, start: int)
    requires 0 <= start < PROCESS_MAX && PolledUpTo(ps, ps', start, PROCESS_MAX)
    ensures NoneDue(ps')
  {
    forall i | 0 <= i < PROCESS_MAX && Eligible(ps'[i])
      ensures !AlarmDue(ps'[i].kernel)
    {
      PollRings(ps[i].kernel);
    }
  }

  method Install(s: Store, ps: Table, ghost start: int, ghost n: int)
    requires s.Valid() && PolledUpTo(s.processes, ps, start, n)
    modifies s`processes
    ensures s.Valid() && s.processes == ps
  {
    PolledIsProper(s.processes, ps, s.ledger, start, n);
    s.processes := ps;
  }

  /** What a scan that found nothing to run settles on. */
  lemma ScanSettles(ps: Table, start: int, blocked: int, input: int)
    requires 0 <= start < PROCESS_MAX && Scanned(ps, start, PROCESS_MAX, blocked, input)
    ensures forall i :: !Runs(ps, i)
    ensures var slot := if input >= 0 then input else blocked;
            && (slot < 0 <==> forall i :: !WaitsAt(ps, i))
            && (slot >= 0 ==> Published(ps, start, slot) && WaitsAt(ps, slot))
  {
    forall i | 0 <= i < PROCESS_MAX
      ensures Position(start, i) < PROCESS_MAX
      ensures InputAt(ps, i) ==> WaitsAt(ps, i)
    {
    }
    if input >= 0 {
      assert InputAt(ps, input);
      assert WaitsAt(ps, input);
    }
  }

  /** Hand the processor to the process in `slot`. */
  method Resume(s: Store, slot: int, resumed: bool) returns (r: int)
    requires s.Valid() && 0 <= slot < PROCESS_MAX && s.processes[slot].used && !s.processes[slot].zombie
    modifies s`processes, s`activePid
    ensures s.Valid() && s.activePid == old(s.processes)[slot].pid
    ensures s.processes[slot].used && s.processes[slot].pid == old(s.processes)[slot].pid
    ensures forall j :: 0 <= j < PROCESS_MAX && j != slot ==> s.processes[j] == old(s.processes)[j]
    ensures r == if Rearms(old(s.processes)[slot]) && !resumed then -1 else 1
    ensures r == 1 ==>
              var p := old(s.processes)[slot];
              s.processes[slot] == p.(state := Runnable, reason := NoWait,
                                      handlerWait := if Rearms(p) then NoWait else p.handlerWait)
  {
    var answer, found := s.SetActive(s.processes[slot].pid);
    assert old(Holds(s.processes, slot, s.processes[slot].pid));
    OnlyHolder(old(s.processes), found, old(s.processes)[slot].pid);
    if answer != 0 {
      return -1;
    }
    s.Amend(slot, s.processes[slot].(reason := NoWait));
    if s.processes[slot].hasHandler && s.processes[slot].handlerWait != NoWait {
      if !resumed {
        return -1;
      }
      s.Amend(slot, s.processes[slot].(handlerWait := NoWait));
    }
    r := 1;
  }

  /** Leave the process in `slot` waiting for the platform, and say what it waits for. */
  method Publish(s: Store, slot: int, ghost was: Table, ghost start: int) returns (reason: Reason)
    requires s.Valid() && OthersPolled(was, s.processes, -1) && NoneDue(s.processes)
    requires 0 <= start < PROCESS_MAX && Published(was, start, slot) && 0 <= slot < PROCESS_MAX
    requires s.processes[slot] == Poll(was[slot])
    modifies s`processes, s`activePid
    ensures s.Valid() && OthersPolled(was, s.processes, slot) && s.activePid == was[slot].pid
    ensures s.processes[slot] == Poll(was[slot]).(state := BrowserBlocked)
    ensures (reason == Read <==> was[slot].reason == Read) && (reason != Read ==> reason == Select)
    ensures Foremost(s.processes, slot) && NoneDue(s.processes)
  {
    assert WaitsAt(was, slot);
    Block(s, slot);
    StaysForemost(was, s.processes, start, slot);
    reason := s.processes[slot].reason;
    if reason == WaitPid {
      reason := Select;
    }
  }

  /** Leave the process in `slot` waiting for the platform. */
  method Block(s: Store, slot: int)
    requires s.Valid() && 0 <= slot < PROCESS_MAX && s.processes[slot].used && !s.processes[slot].zombie
    modifies s`processes, s`activePid
    ensures s.Valid() && s.activePid == old(s.processes)[slot].pid
    ensures s.processes == old(s.processes)[slot := old(s.processes)[slot].(state := BrowserBlocked)]
  {
    var answer, found := s.SetActive(s.processes[slot].pid);
    assert old(Holds(s.processes, slot, s.processes[slot].pid));
    OnlyHolder(old(s.processes), found, old(s.processes)[slot].pid);
    s.Amend(slot, s.processes[slot].(state := BrowserBlocked));
  }

  // ---- fairness --------------------------------------------------------------------

  /** A sequence of calls: the tables they saw, the slots of the processes then active, and the
      slots they chose, while process `i` stays able to run. */
  ghost predicate Calls(tables: seq<Table>, currents: seq<int>, picks: seq<int>, i: int) {
    && |tables| == |currents| == |picks|
    && (forall k :: 0 <= k < |picks| ==> 0 <= currents[k] < PROCESS_MAX)
    && (forall k :: 0 <= k < |picks| ==> FirstToRun(tables[k], Start(currents[k], false), picks[k]))
    && (forall k :: 0 <= k < |picks| ==> Runs(tables[k], i))
  }

  /** How many slots the scan after `current` looks at before `i`. */
  ghost function Distance(current: int, i: int): int {
    Position(Start(current, false), i)
  }

  /** Between two calls the active process does not move past `i`: it is the one chosen, or one
      whose slot lies between that and `i`. */
  ghost predicate NeverPast(currents: seq<int>, picks: seq<int>, i: int)
    requires |currents| == |picks|
  {
    forall k :: 0 < k < |picks| ==> Distance(currents[k], i) <= Distance(picks[k - 1], i)
  }

  /** Every call that passes over `i` brings the scan closer to it. */
  ghost predicate Closing(currents: seq<int>, picks: seq<int>, i: int)
    requires |currents| == |picks|
  {
    forall k :: 0 <= k < |picks| && picks[k] != i ==> Distance(picks[k], i) < Distance(currents[k], i)
  }

  lemma Closer(ps: Table, current: int, pick: int, i: int)
    requires 0 <= current < PROCESS_MAX && FirstToRun(ps, Start(current, false), pick) && Runs(ps, i) && pick != i
    ensures Distance(pick, i) < Distance(current, i)
  {
    assert Position(Start(current, false), pick) <= Position(Start(current, false), i);
  }

  lemma CallsClose(tables: seq<Table>, currents: seq<int>, picks: seq<int>, i: int)
    requires Calls(tables, currents, picks, i)
    ensures Closing(currents, picks, i)
  {
    forall k | 0 <= k < |picks| && picks[k] != i
      ensures Distance(picks[k], i) < Distance(currents[k], i)
    {
      assert FirstToRun(tables[k], Start(currents[k], false), picks[k]) && Runs(tables[k], i);
      Closer(tables[k], currents[k], picks[k], i);
    }
  }

  lemma {:induction false} Approaches(currents: seq<int>, picks: seq<int>, i: int, a: int, b: int)
    requires |currents| == |picks| && Closing(currents, picks, i) && NeverPast(currents, picks, i)
    requires 0 <= a < b <= |picks| && forall k :: a <= k < b ==> picks[k] != i
    ensures Distance(picks[b - 1], i) <= Distance(currents[a], i) - (b - a)
    decreases b - a
  {
    if a < b - 1 {
      Approaches(currents, picks, i, a, b - 1);
      assert Distance(currents[b - 1], i) <= Distance(picks[b - 1 - 1], i);
    }
  }

  /** If the active process does not move past it between calls, a process that stays able to
      run is chosen within sixteen calls, and no other process is chosen twice before it. */
  lemma Fair(tables: seq<Table>, currents: seq<int>, picks: seq<int>, i: int)
    requires Calls(tables, currents, picks, i) && NeverPast(currents, picks, i)
    ensures |picks| >= PROCESS_MAX ==> i in picks[..PROCESS_MAX]
    ensures forall a, b :: 0 <= a < b < |picks| && i !in picks[..b + 1] ==> picks[a] != picks[b]
  {
    CallsClose(tables, currents, picks, i);
    if |picks| >= PROCESS_MAX {
      assert Runs(tables[0], i);
      assert FirstToRun(tables[PROCESS_MAX - 1], Start(currents[PROCESS_MAX - 1], false), picks[PROCESS_MAX - 1]);
      WithinSixteen(currents, picks, i);
    }
    forall a, b | 0 <= a < b < |picks| && i !in picks[..b + 1]
      ensures picks[a] != picks[b]
    {
      OncePassed(currents, picks, i, a, b);
    }
  }

  lemma WithinSixteen(currents: seq<int>, picks: seq<int>, i: int)
    requires |currents| == |picks| && Closing(currents, picks, i) && NeverPast(currents, picks, i)
    requires |picks| >= PROCESS_MAX && 0 <= i < PROCESS_MAX
    requires 0 <= currents[0] < PROCESS_MAX && 0 <= picks[PROCESS_MAX - 1] < PROCESS_MAX
    ensures i in picks[..PROCESS_MAX]
  {
    if forall k :: 0 <= k < PROCESS_MAX ==> picks[k] != i {
      Approaches(currents, picks, i, 0, PROCESS_MAX);
    } else {
      var k :| 0 <= k < PROCESS_MAX && picks[k] == i;
      assert picks[..PROCESS_MAX][k] == i;
    }
  }

  lemma OncePassed(currents: seq<int>, picks: seq<int>, i: int, a: int, b: int)
    requires |currents| == |picks| && Closing(currents, picks, i) && NeverPast(currents, picks, i)
    requires 0 <= a < b < |picks| && i !in picks[..b + 1]
    ensures picks[a] != picks[b]
  {
    forall k | a + 1 <= k < b + 1
      ensures picks[k] != i
    {
      assert picks[..b + 1][k] == picks[k];
    }
    Approaches(currents, picks, i, a + 1, b + 1);
    assert Distance(currents[a + 1], i) <= Distance(picks[a + 1 - 1], i);
  }

  // ---- timers ----------------------------------------------------------------------

  /** `p` has a timer that goes off at `deadline`. */
  ghost predicate Timer(p: Process, deadline: int) {
    && p.used && !p.zombie && p.kernel.hasClock
    && ((p.kernel.wait.active && p.kernel.wait.hasDeadline && p.kernel.wait.deadline == deadline)
        || (p.kernel.alarmActive && p.kernel.alarmDeadline == deadline))
  }

  ghost function Remaining(p: Process, deadline: int): int {
    if deadline > p.kernel.now then deadline - p.kernel.now else 0
  }

  /** The least time that remains on any timer, if there is one. */
  ghost predicate LeastTimer(ps: Table, found: bool, nanoseconds: int) {
    && (found <==> exists i, at :: 0 <= i < PROCESS_MAX && Timer(ps[i], at))
    && (found ==>
          exists i, at :: 0 <= i < PROCESS_MAX && Timer(ps[i], at) && nanoseconds == Remaining(ps[i], at))
    && (forall i, at :: 0 <= i < PROCESS_MAX && Timer(ps[i], at) ==> nanoseconds <= Remaining(ps[i], at))
  }

  /** `native_process_driver_wait_timeout`: how long until the first timer goes off. */
  method WaitTimeout(ps: Table) returns (found: bool, nanoseconds: u64)
    ensures LeastTimer(ps, found, nanoseconds)
  {
    found, nanoseconds := false, U64_MAX;
    var i := 0;
    while i < PROCESS_MAX
      invariant 0 <= i <= PROCESS_MAX
      invariant found <==> exists j, at :: 0 <= j < i && Timer(ps[j], at)
      invariant found ==>
                  exists j, at :: 0 <= j < i && Timer(ps[j], at) && nanoseconds == Remaining(ps[j], at)
      invariant !found ==> nanoseconds == U64_MAX
      invariant forall j, at :: 0 <= j < i && Timer(ps[j], at) ==> nanoseconds <= Remaining(ps[j], at)
    {
      var p := ps[i];
      if p.used && !p.zombie && p.kernel.hasClock {
        var now := p.kernel.now;
        if p.kernel.wait.active && p.kernel.wait.hasDeadline {
          assert Timer(p, p.kernel.wait.deadline);
          var remaining := if p.kernel.wait.deadline > now then p.kernel.wait.deadline - now else 0;
          if remaining < nanoseconds {
            nanoseconds := remaining;
          }
          found := true;
        }
        if p.kernel.alarmActive {
          assert Timer(p, p.kernel.alarmDeadline);
          var remaining := if p.kernel.alarmDeadline > now then p.kernel.alarmDeadline - now else 0;
          if remaining < nanoseconds {
            nanoseconds := remaining;
          }
          found := true;
        }
      }
      i := i + 1;
    }
  }

  /** If the timers are those of waiters, all on one clock, and nobody waits for input, the time
      the platform is told to wait is that of the slot that was published. */
  lemma TimeoutIsPublished(ps: Table, slot: int, found: bool, nanoseconds: int)
    requires Foremost(ps, slot) && NoneDue(ps) && LeastTimer(ps, found, nanoseconds)
    requires !InputAt(ps, slot) && ps[slot].kernel.hasClock
    requires forall i, at :: 0 <= i < PROCESS_MAX && Timer(ps[i], at) ==>
               WaitsAt(ps, i) && ps[i].kernel.now == ps[slot].kernel.now
    ensures found <==> exists at :: Timer(ps[slot], at)
    ensures found ==> exists at :: Timer(ps[slot], at) && nanoseconds == Remaining(ps[slot], at)
  {
    if found {
      var i, at :| 0 <= i < PROCESS_MAX && Timer(ps[i], at) && nanoseconds == Remaining(ps[i], at);
      assert WaitsAt(ps, i) && Rings(ps[i].kernel, at);
      assert RingsBy(ps[slot].kernel, at);
      var t :| t <= at && Rings(ps[slot].kernel, t);
      assert Timer(ps[slot], t);
      assert Remaining(ps[slot], t) <= Remaining(ps[i], at);
    }
  }

  /** When nothing can run, no wait the scheduler may publish is due: the platform is never
      asked to wait for a moment that has passed. A wait for a record lock has no deadline
      of its own. */
  lemma NothingDue(ps: Table, i: int, deadline: int)
    requires forall j :: !Runs(ps, j)
    requires WaitsAt(ps, i) && !ps[i].kernel.wait.onLock && Timer(Poll(ps[i]), deadline)
    ensures Remaining(Poll(ps[i]), deadline) > 0
  {
    assert !Runs(ps, i);
  }
}
