/** Whole runs of the process table: what holds however forks, exits, signals and waits
    follow each other. */
module ProcessRuns {
  import opened Processes
  import opened ProcessTable

  datatype Call =
    | Fork(kernelCloned: bool, lockTaken: bool, capsuleCloned: bool)
    | Exit(code: int)
    | Signal(pid: int, signal: int)
    | Terminate(signal: int)
    | Wait(pid: int, nohang: bool, merged: int)
    | SetActive(pid: int)

  /** A status handed to a waiting parent. */
  datatype Report = Report(parent: int, pid: int, status: int)

  ghost predicate Sound(s: Store)
    reads s
  {
    s.Valid() && Below(s.processes, s.ledger, s.nextPid)
  }

  /** The process table as a value: the slots, the active pid, the pid counter, the number of
      processes and its limit. */
  datatype State = State(table: Table, active: int, next: int, count: int, hasLimit: bool, limit: int)

  function Now(s: Store): State
    reads s
  {
    State(s.processes, s.activePid, s.nextPid, s.processCount, s.hasLimit, s.processLimit)
  }

  /** The two calls that can break the table: forking once the counter has wrapped, and
      terminating a process that is a zombie already. */
  predicate LegalAt(a: State, call: Call) {
    match call
    case Fork(_, _, _) => a.next > 0
    case Terminate(_) =>
      forall i :: 0 <= i < PROCESS_MAX && a.table[i].used && a.table[i].pid == a.active ==> !a.table[i].zombie
    case Wait(_, _, merged) => merged <= 0
    case _ => true
  }

  predicate Legal(s: Store, call: Call)
    reads s
  {
    LegalAt(Now(s), call)
  }

  // ---- what each call does ---------------------------------------------------------

  ghost predicate Room(a: State) {
    !(a.hasLimit && a.count >= a.limit) && a.count < PROCESS_MAX
  }

  /** A fork that fails for want of a lock or of memory still moves the pid counter. */
  ghost predicate Forks(a: State, kernelCloned: bool, lockTaken: bool, capsuleCloned: bool, b: State) {
    if !Room(a) || !kernelCloned then b == a
    else if !lockTaken then b == a.(next := Issued(a.next))
    else if !capsuleCloned then b == a.(next := Advanced(a.next))
    else
      exists slot, parent ::
        && FirstFree(a.table, slot) && Holds(a.table, parent, a.active)
        && b == a.(table := a.table[slot := Child(a.table[parent], Issued(a.next))],
                   next := Advanced(a.next), count := a.count + 1)
  }

  ghost predicate Exits(a: State, code: int, b: State) {
    exists slot ::
      && Holds(a.table, slot, a.active)
      && b == a.(table := if a.active == 1 || a.table[slot].zombie then a.table
                          else Died(a.table, slot, ExitWord(code)))
  }

  ghost predicate Signals(a: State, pid: int, signal: int, b: State) {
    if 1 <= signal <= SIGNAL_MAX && InUse(a.table, pid) then
      exists slot ::
        && Holds(a.table, slot, pid)
        && var p := a.table[slot];
           if p.zombie || Raise(p.kernel, signal).1 != 0 then b == a
           else
             var struck := a.table[slot := p.(kernel := Struck(p.kernel, signal))];
             b == a.(table := if Fatal(p, signal, a.active) then Died(struck, slot, SignalWord(signal)) else struck)
    else
      b == a
  }

  ghost predicate Terminates(a: State, signal: int, b: State) {
    if 1 <= signal <= SIGNAL_MAX then
      exists slot ::
        && Holds(a.table, slot, a.active)
        && b == a.(table := Died(a.table[slot := Cleared(a.table[slot], signal)], slot, SignalWord(signal)))
    else
      b == a
  }

  ghost predicate Waits(a: State, pid: int, merged: int, b: State) {
    if pid >= -1 && merged == 0 && HasZombie(a.table, a.active, pid) then
      exists slot ::
        && 0 <= slot < PROCESS_MAX && Settles(a.table, a.active, if pid == 0 then -1 else pid, slot)
        && a.table[slot].pid != a.active && a.table[slot].zombie
        && b == a.(table := a.table[slot := FREE], count := a.count - 1)
    else
      b == a
  }

  ghost predicate Switches(a: State, pid: int, b: State) {
    if exists i :: Holds(a.table, i, pid) && !a.table[i].zombie then
      exists slot ::
        && Holds(a.table, slot, pid)
        && b == a.(table := a.table[slot := a.table[slot].(state := Runnable)], active := pid)
    else
      b == a
  }

  /** The effect of a call on the table. */
  ghost predicate Effect(a: State, call: Call, b: State) {
    match call
    case Fork(kernelCloned, lockTaken, capsuleCloned) => Forks(a, kernelCloned, lockTaken, capsuleCloned, b)
    case Exit(code) => Exits(a, code, b)
    case Signal(pid, signal) => Signals(a, pid, signal, b)
    case Terminate(signal) => Terminates(a, signal, b)
    case Wait(pid, _, merged) => Waits(a, pid, merged, b)
    case SetActive(pid) => Switches(a, pid, b)
  }

  ghost predicate Reported(l: Ledger, r: Report) {
    && r.pid in l.reaped
    && r.pid in l.recorded && l.recorded[r.pid] == r.status
    && r.pid in l.parentOf && l.parentOf[r.pid] == r.parent
  }

  /** The slots hold the pids they held, and the ledger gained at most one death. */
  ghost predicate Quietly(ps: Table, ps': Table, l: Ledger, l': Ledger) {
    && (forall i :: 0 <= i < PROCESS_MAX ==> ps'[i].used == ps[i].used && ps'[i].pid == ps[i].pid)
    && (l' == l || exists pid, status :: InUse(ps, pid) && l' == Record(l, pid, status))
  }

  lemma QuietKeeps(ps: Table, ps': Table, l: Ledger, l': Ledger, next: int)
    requires Quietly(ps, ps', l, l') && Below(ps, l, next)
    ensures Below(ps', l', next)
    ensures forall r :: Reported(l, r) ==> Reported(l', r)
    ensures l'.reaped == l.reaped && l'.reaps == l.reaps
  {
    if l' != l {
      var pid, status :| InUse(ps, pid) && l' == Record(l, pid, status);
      var i :| Holds(ps, i, pid);
    }
  }

  lemma DeathIsQuiet(ps: Table, struck: Table, l: Ledger, slot: int, status: int)
    requires 0 <= slot < PROCESS_MAX && ps[slot].used
    requires forall i :: 0 <= i < PROCESS_MAX ==> struck[i].used == ps[i].used && struck[i].pid == ps[i].pid
    ensures Quietly(ps, Died(struck, slot, status), l, Record(l, ps[slot].pid, status))
  {
    assert Holds(ps, slot, ps[slot].pid);
    assert InUse(ps, ps[slot].pid);
  }

  method SignalStep(s: Store, pid: int, signal: int)
    requires s.Valid()
    modifies s`processes, s`ledger
    ensures s.Valid() && Quietly(old(s.processes), s.processes, old(s.ledger), s.ledger)
    ensures Signals(old(Now(s)), pid, signal, Now(s))
  {
    ghost var ps := s.processes;
    var r, slot := s.Signal(pid, signal);
    if s.ledger != old(s.ledger) && Holds(ps, slot, pid) {
      var struck := ps[slot := ps[slot].(kernel := Struck(ps[slot].kernel, signal))];
      DeathIsQuiet(ps, struck, old(s.ledger), slot, SignalWord(signal));
    }
  }

  method TerminateStep(s: Store, signal: int)
    requires s.Valid() && Legal(s, Terminate(signal))
    modifies s`processes, s`ledger
    ensures s.Valid() && Quietly(old(s.processes), s.processes, old(s.ledger), s.ledger)
    ensures Terminates(old(Now(s)), signal, Now(s))
  {
    var r, slot := s.Terminate(signal);
    if r == 0 {
      DeathIsQuiet(old(s.processes), old(s.processes)[slot := Cleared(old(s.processes)[slot], signal)], old(s.ledger),
                   slot, SignalWord(signal));
    }
  }

  method ExitStep(s: Store, code: int)
    requires s.Valid()
    modifies s`processes, s`ledger
    ensures s.Valid() && Quietly(old(s.processes), s.processes, old(s.ledger), s.ledger)
    ensures Exits(old(Now(s)), code, Now(s))
  {
    var _, slot := s.Exit(code);
    DeathIsQuiet(old(s.processes), old(s.processes), old(s.ledger), slot, ExitWord(code));
  }

  method SwitchStep(s: Store, pid: int)
    requires s.Valid()
    modifies s`processes, s`activePid
    ensures s.Valid() && Quietly(old(s.processes), s.processes, s.ledger, s.ledger)
    ensures Switches(old(Now(s)), pid, Now(s))
  {
    var _, _ := s.SetActive(pid);
  }

  /** A call that ends no process, begins none and reaps none, but may kill some. */
  method QuietStep(s: Store, call: Call)
    requires Sound(s) && Legal(s, call) && !call.Fork? && !call.Wait?
    modifies s
    ensures s.Valid() && s.nextPid == old(s.nextPid)
    ensures Quietly(old(s.processes), s.processes, old(s.ledger), s.ledger)
    ensures !call.SetActive? ==> s.activePid == old(s.activePid)
    ensures Effect(old(Now(s)), call, Now(s))
  {
    match call {
      case Exit(code) =>
        ExitStep(s, code);
      case Signal(pid, signal) =>
        SignalStep(s, pid, signal);
      case Terminate(signal) =>
        TerminateStep(s, signal);
      case SetActive(pid) =>
        SwitchStep(s, pid);
    }
  }

  /** A call after which the active process is in the slot it was in. */
  ghost predicate Steady(call: Call) {
    !call.SetActive?
  }

  /** The same process is active, in the same slot. */
  ghost predicate StaysActive(ps: Table, active: int, ps': Table, active': int) {
    active' == active && forall i :: Holds(ps, i, active) ==> Holds(ps', i, active)
  }

  method ForkStep(s: Store, call: Call, ghost earlier: seq<Report>)
    requires Sound(s) && call.Fork? && Legal(s, call)
    requires forall r :: r in earlier ==> Reported(s.ledger, r)
    modifies s
    ensures Sound(s) && StaysActive(old(s.processes), old(s.activePid), s.processes, s.activePid)
    ensures forall r :: r in earlier ==> Reported(s.ledger, r)
    ensures Effect(old(Now(s)), call, Now(s)) && s.ledger.reaps == old(s.ledger.reaps)
  {
    var _, _, _ := s.Fork(call.kernelCloned, call.lockTaken, call.capsuleCloned);
  }

  method WaitStep(s: Store, call: Call, ghost earlier: seq<Report>) returns (reports: seq<Report>)
    requires Sound(s) && call.Wait? && Legal(s, call)
    requires forall r :: r in earlier ==> Reported(s.ledger, r)
    modifies s
    ensures Sound(s) && |reports| <= 1
    ensures StaysActive(old(s.processes), old(s.activePid), s.processes, s.activePid)
    ensures forall r :: r in earlier ==> Reported(s.ledger, r)
    ensures forall r :: r in reports ==> Reported(s.ledger, r) && r.pid !in old(s.ledger).reaped
    ensures Effect(old(Now(s)), call, Now(s)) && s.ledger.reaps == old(s.ledger.reaps) + |reports|
  {
    reports := [];
    var r, status, _ := s.Wait(call.pid, call.nohang, call.merged);
    if r > 0 {
      reports := [Report(s.activePid, r, status)];
    }
  }

  /** One call keeps the table sound and every earlier report true; a new report is about a
      pid never reported before. */
  method Step(s: Store, call: Call, ghost earlier: seq<Report>) returns (reports: seq<Report>)
    requires Sound(s) && Legal(s, call)
    requires forall r :: r in earlier ==> Reported(s.ledger, r)
    modifies s
    ensures Sound(s) && |reports| <= 1
    ensures forall r :: r in earlier ==> Reported(s.ledger, r)
    ensures forall r :: r in reports ==> Reported(s.ledger, r) && r.pid !in old(s.ledger).reaped
    ensures Steady(call) ==> StaysActive(old(s.processes), old(s.activePid), s.processes, s.activePid)
    ensures Effect(old(Now(s)), call, Now(s)) && s.ledger.reaps == old(s.ledger.reaps) + |reports|
  {
    reports := [];
    match call {
      case Fork(_, _, _) =>
        ForkStep(s, call, earlier);
      case Wait(_, _, _) =>
        reports := WaitStep(s, call, earlier);
      case _ =>
        QuietStep(s, call);
        QuietKeeps(old(s.processes), s.processes, old(s.ledger), s.ledger, s.nextPid);
    }
  }

  lemma MoreReports(l: Ledger, reports: seq<Report>, more: seq<Report>)
    requires |more| <= 1
    requires forall r :: r in reports ==> r.pid in l.reaped
    requires forall r :: r in more ==> r.pid !in l.reaped
    requires forall a, b :: 0 <= a < b < |reports| ==> reports[a].pid != reports[b].pid
    ensures forall a, b :: 0 <= a < b < |reports + more| ==> (reports + more)[a].pid != (reports + more)[b].pid
  {
    forall a, b | 0 <= a < b < |reports + more|
      ensures (reports + more)[a].pid != (reports + more)[b].pid
    {
      assert (reports + more)[a] in reports;
      assert b >= |reports| ==> (reports + more)[b] in more;
    }
  }

  /** The states between calls. */
  ghost predicate Trace(states: seq<State>, calls: seq<Call>) {
    && |states| == |calls| + 1
    && forall i :: 0 <= i < |calls| ==> LegalAt(states[i], calls[i]) && Effect(states[i], calls[i], states[i + 1])
  }

  lemma TraceNext(states: seq<State>, calls: seq<Call>, i: nat, next: State)
    requires i < |calls| && Trace(states, calls[..i])
    requires LegalAt(states[i], calls[i]) && Effect(states[i], calls[i], next)
    ensures Trace(states + [next], calls[..i + 1])
  {
    var more, made := states + [next], calls[..i + 1];
    forall j | 0 <= j < |made|
      ensures LegalAt(more[j], made[j]) && Effect(more[j], made[j], more[j + 1])
    {
      if j < i {
        assert calls[..i][j] == made[j];
      }
    }
  }

  /** Over any run, until an illegal call: every call has its effect, every child collected is
      reported, each status once, to the parent the pid was issued to, and as recorded when
      that process died. */
  method Run(s: Store, calls: seq<Call>) returns (reports: seq<Report>, done: nat, ghost states: seq<State>)
    requires Sound(s)
    modifies s
    ensures Sound(s) && done <= |calls|
    ensures done < |calls| ==> !Legal(s, calls[done])
    ensures Trace(states, calls[..done]) && states[0] == old(Now(s)) && states[done] == Now(s)
    ensures s.ledger.reaps == old(s.ledger.reaps) + |reports|
    ensures forall a, b :: 0 <= a < b < |reports| ==> reports[a].pid != reports[b].pid
    ensures forall r :: r in reports ==> Reported(s.ledger, r)
    ensures s.processCount == 1 + s.ledger.forks - s.ledger.reaps
  {
    reports, done, states := [], 0, [Now(s)];
    while done < |calls| && Legal(s, calls[done])
      invariant Sound(s) && done <= |calls|
      invariant Trace(states, calls[..done]) && states[0] == old(Now(s)) && states[done] == Now(s)
      invariant s.ledger.reaps == old(s.ledger.reaps) + |reports|
      invariant forall r :: r in reports ==> Reported(s.ledger, r)
      invariant forall a, b :: 0 <= a < b < |reports| ==> reports[a].pid != reports[b].pid
    {
      ghost var before := s.ledger;
      var more := Step(s, calls[done], reports);
      MoreReports(before, reports, more);
      TraceNext(states, calls, done, Now(s));
      reports, states := reports + more, states + [Now(s)];
      done := done + 1;
    }
  }
}
