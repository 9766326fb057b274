/** The process table of the store (src/engine/process.c): forking, exiting, signalling
    and waiting. */
module ProcessTable {
  import opened Processes

  const I32_MAX: int := 0x7fff_ffff

  /** What has been promised so far: the parent every pid was issued to, the status every
      dead process was recorded with, and the pids whose status has been collected. */
  datatype Ledger = Ledger(parentOf: map<int, int>, recorded: map<int, int>, reaped: set<int>, forks: nat, reaps: nat)

  // ---- invariants ------------------------------------------------------------------

  /** How many of the first `n` slots are used. */
  ghost function Used(ps: Table, n: nat): (count: nat)
    requires n <= PROCESS_MAX
    ensures count <= n
    ensures count == n <==> forall i :: 0 <= i < n ==> ps[i].used
  {
    if n == 0 then 0 else Used(ps, n - 1) + if ps[n - 1].used then 1 else 0
  }

  lemma {:induction false} UsedUpdate(ps: Table, slot: int, p: Process, n: nat)
    requires 0 <= slot < PROCESS_MAX && n <= PROCESS_MAX && ps[slot].used != p.used
    ensures Used(ps[slot := p], n) == Used(ps, n) + if slot >= n then 0 else if p.used then 1 else -1
  {
    if n > 0 {
      UsedUpdate(ps, slot, p, n - 1);
    }
  }

  lemma {:induction false} UsedSame(ps: Table, ps': Table, n: nat)
    requires n <= PROCESS_MAX
    requires forall i :: 0 <= i < n ==> ps'[i].used == ps[i].used
    ensures Used(ps', n) == Used(ps, n)
  {
    if n > 0 {
      UsedSame(ps, ps', n - 1);
    }
  }

  lemma {:induction false} OneUsed(ps: Table, n: nat)
    requires 0 < n <= PROCESS_MAX
    requires forall i :: 0 <= i < n ==> (ps[i].used <==> i == 0)
    ensures Used(ps, n) == 1
  {
    if n > 1 {
      OneUsed(ps, n - 1);
    } else {
      assert Used(ps, 0) == 0;
    }
  }

  ghost predicate InUse(ps: Table, pid: int) {
    exists i :: Holds(ps, i, pid)
  }

  ghost predicate Distinct(ps: Table) {
    forall i, j :: 0 <= i < j < PROCESS_MAX && ps[i].used && ps[j].used ==> ps[i].pid != ps[j].pid
  }

  ghost predicate Named(p: Process) {
    if p.used then p.pid > 0 && p.pid != p.ppid else p == FREE
  }

  ghost predicate Entered(p: Process, l: Ledger) {
    p.used ==>
      && (if p.pid in l.parentOf then l.parentOf[p.pid] == p.ppid else p.pid == 1 && p.ppid == 0)
      && p.pid !in l.reaped
      && (p.zombie <==> p.pid in l.recorded)
      && (p.zombie ==> p.exitStatus == l.recorded[p.pid])
  }

  ghost predicate Proper(ps: Table, l: Ledger) {
    forall i :: 0 <= i < PROCESS_MAX ==> Named(ps[i]) && Entered(ps[i], l)
  }

  /** No pid, live or in the ledger, has been reached yet by the counter that issues them. */
  ghost predicate Below(ps: Table, l: Ledger, next: int) {
    next > 0 ==>
      && (forall i :: 0 <= i < PROCESS_MAX && ps[i].used ==> ps[i].pid < next)
      && (forall pid :: pid in l.parentOf || pid in l.recorded || pid in l.reaped ==> pid < next)
  }

  // ---- deaths ----------------------------------------------------------------------

  /** A process that has exited: its descriptors are closed, which cancels its wait. */
  ghost function Dead(p: Process, status: int): Process {
    p.(exitStatus := status, zombie := true, state := Exited,
       kernel := p.kernel.(wait := p.kernel.wait.(active := false)))
  }

  /** `p` after the exit of a child of `ppid`. */
  ghost function Notified(p: Process, ppid: int): Process {
    if p.used && p.pid == ppid && !p.zombie then p.(kernel := Raise(p.kernel, SIGCHLD).0) else p
  }

  /** The table after the process in `slot` died with `status`. */
  ghost function Died(ps: Table, slot: int, status: int): Table
    requires 0 <= slot < PROCESS_MAX
  {
    seq(PROCESS_MAX, i requires 0 <= i < PROCESS_MAX =>
      Notified(if i == slot then Dead(ps[i], status) else ps[i], ps[slot].ppid))
  }

  /** A death is recorded once. */
  ghost function Record(l: Ledger, pid: int, status: int): Ledger {
    if pid in l.recorded then l else l.(recorded := l.recorded[pid := status])
  }

  ghost predicate Overwrites(p: Process, status: int) {
    p.zombie && p.exitStatus != status
  }

  /** A death keeps the table proper unless it overwrites the status of an earlier one. */
  lemma DiedKeeps(ps: Table, l: Ledger, slot: int, status: int)
    requires 0 <= slot < PROCESS_MAX && ps[slot].used
    requires Distinct(ps) && Proper(ps, l)
    ensures Distinct(Died(ps, slot, status))
    ensures Proper(Died(ps, slot, status), Record(l, ps[slot].pid, status)) <==> !Overwrites(ps[slot], status)
    ensures Used(Died(ps, slot, status), PROCESS_MAX) == Used(ps, PROCESS_MAX)
  {
    var ps' := Died(ps, slot, status);
    var l' := Record(l, ps[slot].pid, status);
    assert Named(ps[slot]) && Entered(ps[slot], l);
    forall i | 0 <= i < PROCESS_MAX
      ensures ps'[i].used == ps[i].used && ps'[i].pid == ps[i].pid
      ensures Named(ps'[i]) && (Entered(ps'[i], l') <==> i != slot || !Overwrites(ps[slot], status))
    {
      assert Named(ps[i]) && Entered(ps[i], l);
    }
    UsedSame(ps, ps', PROCESS_MAX);
  }

  /** Marking the process dead and then notifying the parent that was found. */
  lemma SameDeath(ps: Table, ps': Table, slot: int, parent: int, status: int)
    requires 0 <= slot < PROCESS_MAX && ps[slot].used && Distinct(ps)
    requires forall i :: 0 <= i < PROCESS_MAX ==> Named(ps[i])
    requires var dead := ps[slot := Dead(ps[slot], status)];
             && (parent == -1 ==> forall i :: !(ps[slot].ppid > 0 && Holds(dead, i, ps[slot].ppid)))
             && (parent != -1 ==> Holds(dead, parent, ps[slot].ppid))
             && ps' == if parent != -1 && !dead[parent].zombie
                       then dead[parent := dead[parent].(kernel := Raise(dead[parent].kernel, SIGCHLD).0)]
                       else dead
    ensures ps' == Died(ps, slot, status)
  {
    var dead := ps[slot := Dead(ps[slot], status)];
    forall i | 0 <= i < PROCESS_MAX
      ensures ps'[i] == Died(ps, slot, status)[i]
    {
      assert Named(ps[i]);
      assert i != parent ==> !Holds(dead, i, ps[slot].ppid) || ps[slot].ppid <= 0 by {
        if parent != -1 {
          assert dead[parent].used && dead[i].used == ps[i].used;
        }
      }
    }
  }

  /** Terminating a process that exited with code 1 replaces its status. */
  lemma TerminateOverwrites(ps: Table, l: Ledger, slot: int)
    requires 0 <= slot < PROCESS_MAX && ps[slot].used && Distinct(ps) && Proper(ps, l)
    requires ps[slot].zombie && ps[slot].exitStatus == ExitWord(1)
    ensures !Proper(Died(ps, slot, SignalWord(9)), Record(l, ps[slot].pid, SignalWord(9)))
  {
    DiedKeeps(ps, l, slot, SignalWord(9));
  }

  // ---- signals ---------------------------------------------------------------------

  /** The kernel record after `signal` is raised and, for a default action, looked at. */
  ghost function Struck(k: Kernel, signal: int): Kernel {
    if DispositionOf(k, signal) == Default then AlarmPoll(Raise(k, signal).0) else Raise(k, signal).0
  }

  /** Raising `signal` kills the process at once. */
  ghost predicate Fatal(p: Process, signal: int, active: int) {
    && DispositionOf(p.kernel, signal) == Default
    && DefaultPending(Struck(p.kernel, signal)) == signal
    && !(p.pid == active && p.isApplication)
  }

  /** A signal whose default action kills is fatal unless it is masked, a lower fatal one is
      already pending, or the process is the running application. */
  lemma FatalExactly(p: Process, signal: int, active: int)
    requires 1 <= signal <= SIGNAL_MAX && DispositionOf(p.kernel, signal) == Default
    requires !Quiet(signal) && !(19 <= signal <= 22)
    ensures Fatal(p, signal, active) <==>
            && signal !in p.kernel.mask
            && (forall s :: 1 <= s < signal ==> !Kills(Struck(p.kernel, signal), s))
            && !(p.pid == active && p.isApplication)
  {
    var k := Struck(p.kernel, signal);
    assert signal in k.pending && k.mask == p.kernel.mask;
    assert Kills(k, signal) <==> signal !in p.kernel.mask;
    var lowest := DefaultPending(k);
    assert lowest != 0 ==> Kills(k, lowest);
  }

  lemma KernelKeeps(ps: Table, l: Ledger, slot: int, p: Process)
    requires Distinct(ps) && Proper(ps, l) && 0 <= slot < PROCESS_MAX && ps[slot].used
    requires p.used && p.pid == ps[slot].pid && p.ppid == ps[slot].ppid && p.zombie == ps[slot].zombie
    requires p.exitStatus == ps[slot].exitStatus
    ensures Distinct(ps[slot := p]) && Proper(ps[slot := p], l)
    ensures Used(ps[slot := p], PROCESS_MAX) == Used(ps, PROCESS_MAX)
    ensures forall pid :: InUse(ps, pid) ==> InUse(ps[slot := p], pid)
  {
    var ps' := ps[slot := p];
    assert Named(ps[slot]) && Entered(ps[slot], l);
    forall i | 0 <= i < PROCESS_MAX
      ensures Named(ps'[i]) && Entered(ps'[i], l)
    {
      assert Named(ps[i]) && Entered(ps[i], l);
    }
    UsedSame(ps, ps', PROCESS_MAX);
    forall pid | InUse(ps, pid)
      ensures InUse(ps', pid)
    {
      var i :| Holds(ps, i, pid);
      assert Holds(ps', i, pid);
    }
  }

  // ---- births ----------------------------------------------------------------------

  /** The kernel record a fork gives the child: no queued signals, no wait, no alarm. */
  ghost function Inherited(k: Kernel): Kernel {
    k.(pending := {}, wait := k.wait.(active := false, onLock := false), alarmActive := false)
  }

  ghost function Child(parent: Process, pid: int): Process {
    FREE.(used := true, pid := pid, ppid := parent.pid, kernel := Inherited(parent.kernel),
          hasEngine := parent.hasEngine, isApplication := parent.isApplication, hasHandler := parent.hasHandler)
  }

  /** A forked child can run at once, no signal is pending for it and no alarm is set; it masks,
      ignores and handles what its parent does. */
  lemma ChildStarts(ps: Table, parent: int, slot: int, pid: int)
    requires 0 <= parent < PROCESS_MAX && 0 <= slot < PROCESS_MAX && slot != parent
    ensures
      var p, ps' := ps[parent], ps[slot := Child(ps[parent], pid)];
      var c := ps'[slot];
      && (Eligible(c) <==> p.hasEngine || p.hasHandler) && Ready(ps', slot)
      && !Alerted(c.kernel) && !c.kernel.alarmActive && !c.kernel.wait.active
      && c.kernel.mask == p.kernel.mask
      && (forall s :: DispositionOf(c.kernel, s) == DispositionOf(p.kernel, s))
      && forall w :: w == pid || w <= 0 ==> HasChild(ps', p.pid, w)
  {
    var p, ps' := ps[parent], ps[slot := Child(ps[parent], pid)];
    forall w | w == pid || w <= 0
      ensures HasChild(ps', p.pid, w)
    {
      assert WaitsFor(ps', p.pid, w, slot);
    }
  }

  ghost function Issue(l: Ledger, pid: int, ppid: int): Ledger {
    l.(parentOf := l.parentOf[pid := ppid], recorded := l.recorded - {pid}, reaped := l.reaped - {pid},
       forks := l.forks + 1)
  }

  ghost predicate FirstFree(ps: Table, slot: int) {
    0 <= slot < PROCESS_MAX && !ps[slot].used && forall i :: 0 <= i < slot ==> ps[i].used
  }

  /** The pid the next fork issues, and the counter it leaves. */
  ghost function Issued(next: int): int {
    if next <= 0 then 2 else next
  }

  ghost function Advanced(next: int): int {
    if Issued(next) == I32_MAX then -1 else Issued(next) + 1
  }

  /** A fork keeps the table proper exactly when the pid it issues is not in use. */
  lemma ForkKeeps(ps: Table, l: Ledger, parent: int, slot: int, pid: int)
    requires Distinct(ps) && Proper(ps, l) && pid > 0
    requires 0 <= parent < PROCESS_MAX && ps[parent].used && FirstFree(ps, slot)
    ensures !InUse(ps, pid) <==>
            Distinct(ps[slot := Child(ps[parent], pid)])
            && Proper(ps[slot := Child(ps[parent], pid)], Issue(l, pid, ps[parent].pid))
  {
    var ps' := ps[slot := Child(ps[parent], pid)];
    var l' := Issue(l, pid, ps[parent].pid);
    if i :| Holds(ps, i, pid) {
      assert ps'[i].used && ps'[slot].used && ps'[i].pid == ps'[slot].pid;
    } else {
      assert !Holds(ps, parent, pid);
      forall i | 0 <= i < PROCESS_MAX
        ensures Named(ps'[i]) && Entered(ps'[i], l')
      {
        assert Named(ps[i]) && Entered(ps[i], l) && !Holds(ps, i, pid);
      }
      forall i, j | 0 <= i < j < PROCESS_MAX && ps'[i].used && ps'[j].used
        ensures ps'[i].pid != ps'[j].pid
      {
        assert !Holds(ps, i, pid) && !Holds(ps, j, pid);
      }
    }
  }

  /** Until the counter wraps, the pid a fork issues is not in use. */
  lemma FreshPid(ps: Table, l: Ledger, next: int)
    requires Below(ps, l, next) && next > 0
    ensures !InUse(ps, Issued(next))
  {
    if i :| Holds(ps, i, next) {
      assert false;
    }
  }

  /** After the counter wraps it need not be: with pid 2 still running, the next fork
      issues pid 2 again. */
  lemma WrappedCounterCollides(k: Kernel, l: Ledger) returns (ps: Table)
    ensures Distinct(ps) && Below(ps, l, Advanced(I32_MAX)) && FirstFree(ps, 2)
    ensures !Distinct(ps[2 := Child(ps[0], Issued(Advanced(I32_MAX)))])
  {
    ps := seq(PROCESS_MAX, i => if i < 2 then FREE.(used := true, pid := i + 1, ppid := i, kernel := k) else FREE);
    var ps' := ps[2 := Child(ps[0], Issued(Advanced(I32_MAX)))];
    assert ps'[1].used && ps'[2].used && ps'[1].pid == ps'[2].pid;
  }

  /** The pending signal and the wait of a terminated process are dropped. */
  ghost function Cleared(p: Process, signal: int): Process {
    p.(kernel := p.kernel.(pending := p.kernel.pending - {signal}, wait := p.kernel.wait.(active := false)))
  }

  lemma OnlyHolder(ps: Table, slot: int, pid: int)
    requires Distinct(ps) && Holds(ps, slot, pid)
    ensures forall i :: Holds(ps, i, pid) ==> i == slot
  {
  }

  // ---- reaping ---------------------------------------------------------------------

  /** Waiting on 0 and on -1 both mean any child. */
  lemma AnyChild(ps: Table, ppid: int, w: int, slot: int)
    requires Settles(ps, ppid, if w == 0 then -1 else w, slot)
    ensures HasChild(ps, ppid, w) <==> slot != -1
    ensures HasZombie(ps, ppid, w) <==> slot != -1 && ps[slot].zombie
  {
    var any := if w == 0 then -1 else w;
    SettlesExactly(ps, ppid, any, slot);
    forall i
      ensures WaitsFor(ps, ppid, w, i) == WaitsFor(ps, ppid, any, i)
    {
    }
  }

  ghost function Collect(l: Ledger, pid: int): Ledger {
    l.(reaped := l.reaped + {pid}, reaps := l.reaps + 1)
  }

  lemma ReapKeeps(ps: Table, l: Ledger, slot: int)
    requires Distinct(ps) && Proper(ps, l)
    requires 0 <= slot < PROCESS_MAX && ps[slot].used
    ensures Distinct(ps[slot := FREE]) && Proper(ps[slot := FREE], Collect(l, ps[slot].pid))
  {
    var ps' := ps[slot := FREE];
    forall i | 0 <= i < PROCESS_MAX
      ensures Named(ps'[i]) && Entered(ps'[i], Collect(l, ps[slot].pid))
    {
      assert Named(ps[i]) && Entered(ps[i], l);
    }
  }

  // ---- exit words ------------------------------------------------------------------

  /** The exit word a wait reports: a code in the second byte, or a signal in the low bits. */
  function ExitWord(code: int): int {
    code % 256 * 256
  }

  function SignalWord(signal: int): int {
    signal % 128
  }

  ghost predicate Signalled(word: int) {
    word % 128 != 0
  }

  /** An exit never reads as a signal; a signal reads as itself unless it is number 128. */
  lemma WordsDecode(code: int, signal: int)
    requires 1 <= signal <= SIGNAL_MAX
    ensures !Signalled(ExitWord(code)) && ExitWord(code) / 256 == code % 256 && ExitWord(code) % 256 == 0
    ensures 0 <= SignalWord(signal) < 128
    ensures Signalled(SignalWord(signal)) && SignalWord(signal) % 128 == signal <==> signal != 128
  {
  }

  // ---- the store -------------------------------------------------------------------

  class Store {
    var processes: Table
    var processCount: int
    var activePid: int
    var nextPid: int
    var hasLimit: bool
    var processLimit: int
    var lastWaitPid: int
    var lastWaitStatus: int
    ghost var ledger: Ledger

    ghost predicate Valid()
      reads this
    {
      && Distinct(processes)
      && Proper(processes, ledger)
      && InUse(processes, activePid)
      && processCount == Used(processes, PROCESS_MAX) == 1 + ledger.forks - ledger.reaps
      && ledger.reaped <= ledger.recorded.Keys
    }

    constructor (kernel: Kernel)
      ensures Valid() && Below(processes, ledger, nextPid)
      ensures processCount == 1 && activePid == 1 && nextPid == 2 && !hasLimit
      ensures forall i :: 0 <= i < PROCESS_MAX && processes[i].used <==> i == 0
      ensures processes[0].kernel == kernel && !processes[0].zombie && processes[0].ppid == 0
    {
      var first := FREE.(used := true, pid := 1, kernel := kernel);
      processes := seq(PROCESS_MAX, i => if i == 0 then first else FREE);
      processCount, activePid, nextPid := 1, 1, 2;
      hasLimit, processLimit, lastWaitPid, lastWaitStatus := false, 0, 0, 0;
      ledger := Ledger(map[], map[], {}, 0, 0);
      new;
      OneUsed(processes, PROCESS_MAX);
      assert Holds(processes, 0, 1);
    }

    method ActiveProcess() returns (slot: int)
      requires Valid()
      ensures Holds(processes, slot, activePid) && activePid > 0
    {
      slot := FindProcess(processes, activePid);
      ghost var i :| Holds(processes, i, activePid);
      assert Named(processes[i]);
    }

    /** There is room for one more process. */
    ghost predicate Room()
      reads this
    {
      !(hasLimit && processCount >= processLimit) && processCount < PROCESS_MAX
    }

    /** `native_store_fork_process`; the flags say whether cloning the kernel record, taking
        the lock identity and cloning the capsule succeed. */
    method Fork(kernelCloned: bool, lockTaken: bool, capsuleCloned: bool) returns (r: int, pid: int, ghost slot: int)
      requires Valid()
      modifies this`processes, this`processCount, this`nextPid, this`ledger
      ensures r == 0 || r == ENOMEM
      ensures r == 0 <==> old(Room()) && kernelCloned && lockTaken && capsuleCloned
      ensures r == 0 ==>
                && pid == Issued(old(nextPid))
                && old(FirstFree(processes, slot))
                && (exists parent :: old(Holds(processes, parent, activePid))
                     && processes == old(processes)[slot := Child(old(processes)[parent], pid)])
                && processCount == old(processCount) + 1
                && ledger == Issue(old(ledger), pid, activePid)
      ensures r == 0 ==> (Valid() <==> !old(InUse(processes, Issued(nextPid))))
      ensures r != 0 ==>
                Valid() && processes == old(processes) && processCount == old(processCount) && ledger == old(ledger)
      ensures nextPid == if !old(Room()) || !kernelCloned then old(nextPid)
                         else if !lockTaken then Issued(old(nextPid)) else Advanced(old(nextPid))
      ensures old(nextPid) > 0 && old(Below(processes, ledger, nextPid)) ==>
                Valid() && Below(processes, ledger, nextPid)
    {
      pid, slot := 0, 0;
      var parent := ActiveProcess();
      if hasLimit && processCount >= processLimit {
        return ENOMEM, pid, slot;
      }
      var free := FindFree();
      if free < 0 || !kernelCloned {
        return ENOMEM, pid, slot;
      }
      if nextPid <= 0 {
        nextPid := 2;
      }
      pid, slot := nextPid, free;
      if !lockTaken {
        return ENOMEM, pid, slot;
      }
      nextPid := if nextPid == I32_MAX then -1 else nextPid + 1;
      if !capsuleCloned {
        assert Named(processes[free]);
        processes := processes[free := FREE];
        assert processes == old(processes);
        return ENOMEM, pid, slot;
      }
      if old(nextPid) > 0 && old(Below(processes, ledger, nextPid)) {
        FreshPid(processes, ledger, old(nextPid));
      }
      Enter(parent, free, pid);
      r := 0;
    }

    /** The last step of a fork: the child takes its slot. */
    method Enter(parent: int, slot: int, pid: int)
      requires Valid() && pid > 0
      requires Holds(processes, parent, activePid) && FirstFree(processes, slot)
      modifies this`processes, this`processCount, this`ledger
      ensures processes == old(processes)[slot := Child(old(processes)[parent], pid)]
      ensures processCount == old(processCount) + 1
      ensures ledger == Issue(old(ledger), pid, activePid)
      ensures Valid() <==> !old(InUse(processes, pid))
    {
      ForkKeeps(processes, ledger, parent, slot, pid);
      UsedUpdate(processes, slot, Child(processes[parent], pid), PROCESS_MAX);
      ledger := Issue(ledger, pid, activePid);
      var p := processes[parent];
      var wait := p.kernel.wait.(active := false, onLock := false);
      var kernel := p.kernel.(pending := {}, alarmActive := false, wait := wait);
      processes := processes[slot := Process(true, pid, p.pid, false, 0, kernel, p.hasEngine, p.isApplication,
                                             p.hasHandler, NoWait, NoWait, 0, Runnable)];
      processCount := processCount + 1;
      assert Holds(processes, parent, activePid);
    }

    /** `native_process_notify_exit`, after the process in `slot` is marked dead. */
    method Die(slot: int, status: int)
      requires Valid() && 0 <= slot < PROCESS_MAX && processes[slot].used
      modifies this`processes, this`ledger
      ensures processes == Died(old(processes), slot, status)
      ensures ledger == Record(old(ledger), old(processes)[slot].pid, status)
      ensures Valid() <==> !Overwrites(old(processes)[slot], status)
    {
      DiedKeeps(processes, ledger, slot, status);
      ledger := Record(ledger, processes[slot].pid, status);
      var p := processes[slot];
      var kernel := p.kernel.(wait := p.kernel.wait.(active := false));
      processes := processes[slot := p.(exitStatus := status, zombie := true, state := Exited, kernel := kernel)];
      var parent := FindProcess(processes, processes[slot].ppid);
      if parent != -1 && !processes[parent].zombie {
        processes := processes[parent := processes[parent].(kernel := Raise(processes[parent].kernel, SIGCHLD).0)];
      }
      SameDeath(old(processes), processes, slot, parent, status);
      assert Died(old(processes), slot, status) == processes;
      ghost var i :| old(Holds(processes, i, activePid));
      assert Holds(processes, i, activePid);
    }

    /** Rewrite the process in `slot` without touching its identity. */
    method Amend(slot: int, p: Process)
      requires Valid() && 0 <= slot < PROCESS_MAX && processes[slot].used
      requires p.used && p.pid == processes[slot].pid && p.ppid == processes[slot].ppid
      requires p.zombie == processes[slot].zombie && p.exitStatus == processes[slot].exitStatus
      modifies this`processes
      ensures Valid() && processes == old(processes)[slot := p]
    {
      KernelKeeps(processes, ledger, slot, p);
      processes := processes[slot := p];
    }

    /** `native_store_exit_process`. */
    method Exit(code: int) returns (r: int, ghost slot: int)
      requires Valid()
      modifies this`processes, this`ledger
      ensures Valid() && old(Holds(processes, slot, activePid))
      ensures r == if activePid == 1 then EINVAL else 0
      ensures if activePid == 1 || old(processes)[slot].zombie
              then processes == old(processes) && ledger == old(ledger)
              else processes == Died(old(processes), slot, ExitWord(code))
                   && ledger == Record(old(ledger), activePid, ExitWord(code))
    {
      var process := ActiveProcess();
      slot := process;
      if processes[process].pid == 1 {
        return EINVAL, slot;
      }
      if processes[process].zombie {
        return 0, slot;
      }
      Die(process, ExitWord(code));
      r := 0;
    }

    /** `native_store_signal_process`. */
    method Signal(pid: int, signal: int) returns (r: int, ghost slot: int)
      requires Valid()
      modifies this`processes, this`ledger
      ensures Valid()
      ensures || ledger == old(ledger)
              || (old(InUse(processes, pid)) && ledger == Record(old(ledger), pid, SignalWord(signal)))
      ensures signal < 0 || signal > SIGNAL_MAX ==> r == EINVAL && processes == old(processes)
      ensures 0 <= signal <= SIGNAL_MAX && !old(InUse(processes, pid)) ==> r == ESRCH && processes == old(processes)
      ensures 0 <= signal <= SIGNAL_MAX && old(InUse(processes, pid)) ==>
                && old(Holds(processes, slot, pid))
                && var p := old(processes)[slot];
                   if signal == 0 then r == 0 && processes == old(processes)
                   else if p.zombie then r == ESRCH && processes == old(processes)
                   else
                     && r == Raise(p.kernel, signal).1
                     && (r != 0 ==> processes == old(processes))
                     && (r == 0 && Fatal(p, signal, activePid) ==>
                          ledger == Record(old(ledger), pid, SignalWord(signal)))
                     && (r == 0 ==>
                           var struck := old(processes)[slot := p.(kernel := Struck(p.kernel, signal))];
                           processes ==
                           if Fatal(p, signal, activePid) then Died(struck, slot, SignalWord(signal)) else struck)
    {
      slot := 0;
      if signal < 0 || signal > SIGNAL_MAX {
        return EINVAL, slot;
      }
      var process := Lookup(pid);
      if process == -1 {
        return ESRCH, slot;
      }
      slot := process;
      if signal == 0 {
        return 0, slot;
      }
      if processes[process].zombie {
        return ESRCH, slot;
      }
      r := Strike(process, signal);
    }

    /** Raise the signal in a live process, and end the process if that kills it. */
    method Strike(process: int, signal: int) returns (r: int)
      requires Valid() && 0 <= process < PROCESS_MAX && processes[process].used && !processes[process].zombie
      requires 1 <= signal <= SIGNAL_MAX
      modifies this`processes, this`ledger
      ensures Valid()
      ensures var p := old(processes)[process];
              && r == Raise(p.kernel, signal).1
              && (r != 0 ==> processes == old(processes))
              && (r == 0 ==>
                    var struck := old(processes)[process := p.(kernel := Struck(p.kernel, signal))];
                    processes ==
                    if Fatal(p, signal, activePid) then Died(struck, process, SignalWord(signal)) else struck)
              && ledger == if r == 0 && Fatal(p, signal, activePid)
                           then Record(old(ledger), p.pid, SignalWord(signal)) else old(ledger)
    {
      var p := processes[process];
      var raised := Raise(p.kernel, signal);
      r := raised.1;
      if r != 0 {
        return;
      }
      if DispositionOf(p.kernel, signal) != Default {
        Amend(process, p.(kernel := raised.0));
        return;
      }
      var k := AlarmPoll(raised.0);
      Amend(process, p.(kernel := k));
      if DefaultPending(k) != signal || (p.pid == activePid && p.isApplication) {
        return;
      }
      Die(process, SignalWord(signal));
    }

    /** `native_store_terminate_process`. It does not look whether the process is a zombie
        already, and then loses the status recorded first unless the new one is equal. */
    method Terminate(signal: int) returns (r: int, ghost slot: int)
      requires Valid()
      modifies this`processes, this`ledger
      ensures old(Holds(processes, slot, activePid))
      ensures r == if 1 <= signal <= SIGNAL_MAX then 0 else EINVAL
      ensures r != 0 ==> processes == old(processes) && ledger == old(ledger)
      ensures r == 0 ==>
                var p := old(processes)[slot];
                && processes == Died(old(processes)[slot := Cleared(p, signal)], slot, SignalWord(signal))
                && ledger == Record(old(ledger), activePid, SignalWord(signal))
      ensures Valid() <==> r != 0 || !Overwrites(old(processes)[slot], SignalWord(signal))
    {
      var process := ActiveProcess();
      slot := process;
      if signal <= 0 || signal > SIGNAL_MAX {
        return EINVAL, slot;
      }
      var p := processes[process];
      var kernel := p.kernel.(wait := p.kernel.wait.(active := false), pending := p.kernel.pending - {signal});
      Amend(process, p.(kernel := kernel));
      Die(process, SignalWord(signal));
      r := 0;
    }

    /** `native_store_wait_process`; `merged` is the answer of merging the path tables. */
    method Wait(pid: int, nohang: bool, merged: int) returns (r: int, status: int, ghost slot: int)
      requires Valid() && merged <= 0
      modifies this`processes, this`processCount, this`lastWaitPid, this`lastWaitStatus, this`ledger
      ensures Valid()
      ensures r <= 0 ==> processes == old(processes) && processCount == old(processCount) && ledger == old(ledger)
      ensures pid < -1 ==> r == EINVAL
      ensures pid >= -1 && !old(HasChild(processes, activePid, pid)) ==> r == ECHILD
      ensures pid >= -1 && !old(ChildReady(processes, activePid, pid)) ==> r == if nohang then 0 else EAGAIN
      ensures pid >= -1 && old(HasZombie(processes, activePid, pid)) ==> if merged != 0 then r == merged else r > 0
      ensures r > 0 ==>
                && 0 <= slot < PROCESS_MAX && old(Settles(processes, activePid, if pid == 0 then -1 else pid, slot))
                && r == old(processes)[slot].pid && r != activePid && processes == old(processes)[slot := FREE]
                && processCount == old(processCount) - 1
                && r in old(ledger.recorded) && status == old(ledger.recorded[r])
                && r in old(ledger.parentOf) && old(ledger.parentOf[r]) == activePid
                && r !in old(ledger.reaped) && ledger == Collect(old(ledger), r)
                && (pid > 0 ==> r == pid)
                && lastWaitPid == r && lastWaitStatus == status
    {
      status, slot := 0, 0;
      var parent := ActiveProcess();
      if pid < -1 {
        return EINVAL, status, slot;
      }
      var candidate := FindChild(processes, processes[parent].pid, if pid == 0 then -1 else pid);
      AnyChild(processes, processes[parent].pid, pid, candidate);
      if candidate == -1 {
        return ECHILD, status, slot;
      }
      slot := candidate;
      if !processes[candidate].zombie {
        return if nohang then 0 else EAGAIN, status, slot;
      }
      if merged != 0 {
        return merged, status, slot;
      }
      r, status := processes[candidate].pid, processes[candidate].exitStatus;
      assert Named(processes[candidate]) && Entered(processes[candidate], ledger);
      lastWaitPid, lastWaitStatus := r, status;
      Reap(parent, candidate);
    }

    /** The last step of a wait: the slot is free again. */
    method Reap(parent: int, slot: int)
      requires Valid() && Holds(processes, parent, activePid)
      requires 0 <= slot < PROCESS_MAX && slot != parent && processes[slot].used && processes[slot].zombie
      modifies this`processes, this`processCount, this`ledger
      ensures Valid() && processes == old(processes)[slot := FREE]
      ensures processCount == old(processCount) - 1
      ensures ledger == Collect(old(ledger), old(processes)[slot].pid)
    {
      ReapKeeps(processes, ledger, slot);
      UsedUpdate(processes, slot, FREE, PROCESS_MAX);
      assert Entered(processes[slot], ledger);
      ledger := Collect(ledger, processes[slot].pid);
      processes := processes[slot := FREE];
      if processCount > 0 {
        processCount := processCount - 1;
      }
      assert Holds(processes, parent, activePid);
    }

    /** `native_store_set_active_process`. */
    method SetActive(pid: int) returns (r: int, ghost slot: int)
      requires Valid()
      modifies this`processes, this`activePid
      ensures Valid()
      ensures r == 0 || r == ECHILD
      ensures r != 0 ==> processes == old(processes) && activePid == old(activePid)
      ensures r != 0 <==> forall i :: old(Holds(processes, i, pid)) ==> old(processes)[i].zombie
      ensures r == 0 ==>
                && old(Holds(processes, slot, pid)) && activePid == pid
                && processes == old(processes)[slot := old(processes)[slot].(state := Runnable)]
    {
      slot := 0;
      var process := Lookup(pid);
      if process == -1 {
        return ECHILD, slot;
      }
      slot := process;
      if processes[process].zombie {
        OnlyHolder(processes, process, pid);
        return ECHILD, slot;
      }
      activePid := pid;
      Amend(process, processes[process].(state := Runnable));
      r := 0;
    }

    method Lookup(pid: int) returns (slot: int)
      requires Valid()
      ensures slot == -1 <==> !InUse(processes, pid)
      ensures slot != -1 ==> Holds(processes, slot, pid)
    {
      slot := FindProcess(processes, pid);
      if InUse(processes, pid) {
        ghost var i :| Holds(processes, i, pid);
        assert Named(processes[i]);
      }
    }

    method FindFree() returns (slot: int)
      ensures slot >= 0 ==> FirstFree(processes, slot)
      ensures slot < 0 ==> forall i :: 0 <= i < PROCESS_MAX ==> processes[i].used
    {
      slot := 0;
      while slot < PROCESS_MAX
        invariant 0 <= slot <= PROCESS_MAX
        invariant forall i :: 0 <= i < slot ==> processes[i].used
      {
        if !processes[slot].used {
          return;
        }
        slot := slot + 1;
      }
      return -1;
    }
  }
}
