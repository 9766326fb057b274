/** Processes as the store keeps them (src/engine/store.h), the parts of the kernel
    record that scheduling looks at (src/engine/lib/kernel.c), and the searches over the
    process table that waiting and scheduling make. */
module Processes {

  const PROCESS_MAX: int := 16
  const SIGNAL_MAX: int := 128
  const SIGALRM: int := 14
  const SIGCHLD: int := 17
  const U64_MAX: int := 0xffff_ffff_ffff_ffff

  const EAGAIN: int := -11
  const ECHILD: int := -10
  const EFAULT: int := -14
  const EINVAL: int := -22
  const ENOMEM: int := -12
  const ENOSYS: int := -38
  const ESRCH: int := -3

  type u64 = x: int | 0 <= x <= U64_MAX

  // ---- the kernel record -----------------------------------------------------------

  datatype Disposition = Default | Ignore | Handler

  /** A pending wait: `onLock` tells whether it waits for a record lock, `ready` whether
      that lock or one of its descriptors is ready, `input` whether it waits to read from
      a terminal or stream. */
  datatype Wait = Wait(active: bool, hasDeadline: bool, deadline: u64, onLock: bool, ready: bool, input: bool)

  datatype Kernel = Kernel(
    hasClock: bool,
    now: u64,
    alarmActive: bool,
    alarmDeadline: u64,
    pending: set<int>,
    mask: set<int>,
    ignored: set<int>,
    handled: set<int>,
    wait: Wait)

  function DispositionOf(k: Kernel, signal: int): Disposition {
    if signal in k.ignored then Ignore else if signal in k.handled then Handler else Default
  }

  /** Signals whose default action is to do nothing. */
  predicate Quiet(signal: int) {
    signal == 17 || signal == 18 || signal == 23 || signal == 28
  }

  /** `posix_kernel_signal_raise`: the new record and the answer. Handled, a signal is pending
      afterwards; ignored, it is not; by default it is, but for the quiet ones and those that
      stop a process, which are refused. */
  function Raise(k: Kernel, signal: int): (r: (Kernel, int))
    ensures r.0 == k.(pending := r.0.pending)
    ensures forall s :: s in r.0.pending <==>
              s in k.pending || (s == signal && 1 <= s <= 128 && s !in k.ignored
                                 && (s in k.handled || s !in {17, 18, 19, 20, 21, 22, 23, 28}))
    ensures r.1 == EINVAL <==> signal < 1 || 128 < signal
    ensures r.1 == ENOSYS <==> signal in {19, 20, 21, 22} && signal !in k.ignored + k.handled
    ensures r.1 in {0, EINVAL, ENOSYS} && (r.1 != 0 ==> r.0 == k)
  {
    if signal < 1 || signal > SIGNAL_MAX then (k, EINVAL)
    else match DispositionOf(k, signal)
         case Ignore => (k, 0)
         case Handler => (k.(pending := k.pending + {signal}), 0)
         case Default =>
           if Quiet(signal) then (k, 0)
           else if 19 <= signal <= 22 then (k, ENOSYS)
           else (k.(pending := k.pending + {signal}), 0)
  }

  /** The alarm is set and its time has come. */
  ghost predicate AlarmDue(k: Kernel) {
    k.alarmActive && k.hasClock && k.alarmDeadline <= k.now
  }

  /** `posix_kernel_alarm_poll`: an alarm goes off once, and is pending unless it is ignored. */
  function AlarmPoll(k: Kernel): (r: Kernel)
    ensures r == if AlarmDue(k) then k.(alarmActive := false, pending := r.pending) else k
    ensures AlarmDue(k) ==> forall s :: s in r.pending <==> s in k.pending || (s == 14 && 14 !in k.ignored)
  {
    if !k.alarmActive || !k.hasClock || k.now < k.alarmDeadline then k
    else Raise(k.(alarmActive := false), SIGALRM).0
  }

  lemma AlarmPollTwice(k: Kernel)
    ensures AlarmPoll(AlarmPoll(k)) == AlarmPoll(k)
  {
  }

  /** A pending, unmasked signal whose default action kills. */
  ghost predicate Kills(k: Kernel, signal: int) {
    signal in k.pending && signal !in k.mask + k.ignored + k.handled + {17, 18, 23, 28}
  }

  function DefaultPendingFrom(k: Kernel, from: int): (signal: int)
    requires 1 <= from
    ensures signal == 0 ==> forall s :: from <= s <= SIGNAL_MAX ==> !Kills(k, s)
    ensures signal != 0 ==>
              from <= signal <= SIGNAL_MAX && Kills(k, signal) && forall s :: from <= s < signal ==> !Kills(k, s)
    decreases SIGNAL_MAX + 1 - from
  {
    if from > SIGNAL_MAX then 0
    else if from in k.pending && from !in k.mask && DispositionOf(k, from) == Default && !Quiet(from) then from
    else DefaultPendingFrom(k, from + 1)
  }

  /** `posix_kernel_signal_default_pending`, on a record already polled: the lowest signal
      that kills, or 0. */
  function DefaultPending(k: Kernel): int {
    DefaultPendingFrom(k, 1)
  }

  predicate Interrupted(k: Kernel) {
    exists s :: s in k.pending && s !in k.mask
  }

  /** `posix_kernel_wait_poll(...) != POSIX_WAIT_BLOCKED`, on a record already polled. */
  predicate WaitOver(k: Kernel) {
    && k.wait.active
    && (|| Interrupted(k)
        || k.wait.ready
        || (!k.wait.onLock && k.wait.hasDeadline && k.hasClock && k.now >= k.wait.deadline))
  }

  // ---- processes -------------------------------------------------------------------

  datatype Reason = NoWait | Read | Select | Other | WaitPid

  datatype RunState = Runnable | BrowserBlocked | WaitBlocked | Exited

  datatype Process = Process(
    used: bool,
    pid: int,
    ppid: int,
    zombie: bool,
    exitStatus: int,
    kernel: Kernel,
    hasEngine: bool,
    isApplication: bool,
    hasHandler: bool,
    handlerWait: Reason,
    reason: Reason,
    waitPid: int,
    state: RunState)

  type Table = ps: seq<Process> | |ps| == PROCESS_MAX witness seq(PROCESS_MAX, _ => FREE)

  const IDLE: Kernel := Kernel(false, 0, false, 0, {}, {}, {}, {}, Wait(false, false, 0, false, false, false))
  const FREE: Process :=
    Process(false, 0, 0, false, 0, IDLE, false, false, false, NoWait, NoWait, 0, Runnable)

  ghost predicate Holds(ps: Table, i: int, pid: int) {
    0 <= i < PROCESS_MAX && ps[i].used && ps[i].pid == pid
  }

  /** `find_process`. */
  method FindProcess(ps: Table, pid: int) returns (slot: int)
    ensures slot == -1 ==> forall i :: !(pid > 0 && Holds(ps, i, pid))
    ensures slot != -1 ==> pid > 0 && Holds(ps, slot, pid) && forall i :: 0 <= i < slot ==> !Holds(ps, i, pid)
  {
    if pid <= 0 {
      return -1;
    }
    slot := 0;
    while slot < PROCESS_MAX
      invariant 0 <= slot <= PROCESS_MAX
      invariant forall i :: 0 <= i < slot ==> !Holds(ps, i, pid)
    {
      if ps[slot].used && ps[slot].pid == pid {
        return;
      }
      slot := slot + 1;
    }
    return -1;
  }

  /** Slot `i` holds a child of `ppid` that a wait on `w` may take. */
  ghost predicate WaitsFor(ps: Table, ppid: int, w: int, i: int) {
    0 <= i < PROCESS_MAX && ps[i].used && ps[i].ppid == ppid && (w > 0 ==> ps[i].pid == w)
  }

  /** What the search of `native_store_wait_process` settles on: the first zombie child,
      or else the last child, or none. */
  ghost predicate Settles(ps: Table, ppid: int, w: int, slot: int) {
    if slot == -1 then forall i :: 0 <= i < PROCESS_MAX ==> !WaitsFor(ps, ppid, w, i)
    else
      && WaitsFor(ps, ppid, w, slot)
      && (ps[slot].zombie ==> forall i :: 0 <= i < slot ==> !(WaitsFor(ps, ppid, w, i) && ps[i].zombie))
      && (!ps[slot].zombie ==> forall i :: WaitsFor(ps, ppid, w, i) ==> i <= slot && !ps[i].zombie)
  }

  method FindChild(ps: Table, ppid: int, w: int) returns (slot: int)
    ensures Settles(ps, ppid, w, slot)
  {
    slot := -1;
    var i := 0;
    while i < PROCESS_MAX
      invariant 0 <= i <= PROCESS_MAX && -1 <= slot < i
      invariant slot == -1 ==> forall j :: 0 <= j < i ==> !WaitsFor(ps, ppid, w, j)
      invariant slot != -1 ==> WaitsFor(ps, ppid, w, slot)
      invariant slot != -1 ==>
                  !ps[slot].zombie && forall j :: 0 <= j < i && WaitsFor(ps, ppid, w, j) ==> j <= slot && !ps[j].zombie
    {
      if ps[i].used && ps[i].ppid == ppid && !(w > 0 && ps[i].pid != w) {
        slot := i;
        if ps[i].zombie {
          return;
        }
      }
      i := i + 1;
    }
  }

  ghost predicate HasChild(ps: Table, ppid: int, w: int) {
    exists i :: WaitsFor(ps, ppid, w, i)
  }

  ghost predicate HasZombie(ps: Table, ppid: int, w: int) {
    exists i :: WaitsFor(ps, ppid, w, i) && ps[i].zombie
  }

  /** Waiting on `w` would not block. */
  ghost predicate ChildReady(ps: Table, ppid: int, w: int) {
    HasZombie(ps, ppid, w) || !HasChild(ps, ppid, w)
  }

  /** The search finds a child, and a zombie child, exactly when there is one. */
  lemma SettlesExactly(ps: Table, ppid: int, w: int, slot: int)
    requires Settles(ps, ppid, w, slot)
    ensures HasChild(ps, ppid, w) <==> slot != -1
    ensures HasZombie(ps, ppid, w) <==> slot != -1 && ps[slot].zombie
  {
    if slot != -1 {
      assert WaitsFor(ps, ppid, w, slot);
    }
  }

  // ---- readiness -------------------------------------------------------------------

  /** A slot the scheduler may run. */
  ghost predicate Eligible(p: Process) {
    p.used && !p.zombie && (p.hasEngine || p.hasHandler)
  }

  /** A signal gets through: one is pending, or the alarm is due, and it is not masked. */
  ghost predicate Alerted(k: Kernel) {
    || (exists s :: s in k.pending && s !in k.mask)
    || (AlarmDue(k) && SIGALRM !in k.ignored && SIGALRM !in k.mask)
  }

  /** The lock or a descriptor is ready, or the time is up; a wait for a lock has no time limit. */
  ghost predicate Satisfied(k: Kernel) {
    k.wait.ready || (!k.wait.onLock && k.wait.hasDeadline && k.hasClock && k.wait.deadline <= k.now)
  }

  /** What `process_wait_ready` answers for slot `i`. */
  ghost predicate Ready(ps: Table, i: int)
    requires 0 <= i < PROCESS_MAX
  {
    var p := ps[i];
    match p.reason
    case NoWait => true
    case WaitPid =>
      || ChildReady(ps, p.pid, p.waitPid)
      || Alerted(p.kernel)
      || (p.kernel.wait.active && p.kernel.wait.hasDeadline && Satisfied(p.kernel))
    case Read => p.kernel.wait.active && (Alerted(p.kernel) || Satisfied(p.kernel))
    case Select => p.kernel.wait.active && (Alerted(p.kernel) || Satisfied(p.kernel))
    case Other => false
  }

  lemma AlertedIs(k: Kernel)
    ensures Interrupted(AlarmPoll(k)) <==> Alerted(k)
    ensures DefaultPending(AlarmPoll(k)) != 0 ==> Alerted(k)
  {
    var r := AlarmPoll(k);
    if s :| s in k.pending && s !in k.mask {
      assert s in r.pending && s !in r.mask;
    }
    if AlarmDue(k) && SIGALRM !in k.ignored && SIGALRM !in k.mask {
      assert SIGALRM in r.pending && SIGALRM !in r.mask;
    }
    var s := DefaultPending(r);
    assert s != 0 ==> Kills(r, s) && s in r.pending;
  }

  /** `process_wait_ready`: it polls the alarm of the process it looks at. */
  method WaitReady(ps: Table, i: int) returns (ready: bool, ps': Table)
    requires 0 <= i < PROCESS_MAX
    ensures ready <==> Ready(ps, i)
    ensures ps' == ps[i := ps[i].(kernel := AlarmPoll(ps[i].kernel))]
  {
    var k := AlarmPoll(ps[i].kernel);
    AlertedIs(ps[i].kernel);
    ps' := ps[i := ps[i].(kernel := k)];
    match ps[i].reason {
      case NoWait => ready := true;
      case WaitPid =>
        var slot := FindZombieChild(ps, ps[i].pid, ps[i].waitPid);
        ready := slot || DefaultPending(k) != 0 || Interrupted(k)
                 || (k.wait.active && k.wait.hasDeadline && WaitOver(k));
      case Read => ready := WaitOver(k);
      case Select => ready := WaitOver(k);
      case Other => ready := false;
    }
  }

  /** The counting loop of `process_wait_ready`. */
  method FindZombieChild(ps: Table, ppid: int, w: int) returns (ready: bool)
    ensures ready <==> ChildReady(ps, ppid, w)
  {
    var children, i := 0, 0;
    while i < PROCESS_MAX
      invariant 0 <= i <= PROCESS_MAX && 0 <= children
      invariant children == 0 <==> forall j :: 0 <= j < i ==> !WaitsFor(ps, ppid, w, j)
      invariant forall j :: 0 <= j < i && WaitsFor(ps, ppid, w, j) ==> !ps[j].zombie
    {
      if !(!ps[i].used || ps[i].ppid != ppid || (w > 0 && ps[i].pid != w)) {
        assert WaitsFor(ps, ppid, w, i);
        children := children + 1;
        if ps[i].zombie {
          return true;
        }
      }
      i := i + 1;
    }
    if children != 0 {
      ghost var j :| 0 <= j < PROCESS_MAX && WaitsFor(ps, ppid, w, j);
    }
    return children == 0;
  }
}
