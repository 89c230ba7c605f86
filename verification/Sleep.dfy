/** Sleep and wakeup with any condition, lock and channel, spin locks and the scheduler, as a machine
    of any number of processes on any number of CPUs.  One step is one access to shared state: one
    lock operation, one change of a process's state, one change of a condition. */
module Sleep {
  import opened Common

  /** HANDLER: not a process but an interrupt handler that is not at work. */
  datatype Procstate = SLEEPING | RUNNABLE | RUNNING | HANDLER

  /** ptable.lock, or any other spin lock. */
  datatype Lock = Table | Spin(l: nat)

  /** The next thing a process does.  The code of a process outside sleep, wakeup, yield and kill is
      arbitrary: it takes a lock, and while it holds it changes conditions that the lock guards,
      sleeps on one of them, calls wakeup, and releases the lock. */
  datatype PC =
    | Idle                                // no lock held
    | Acq(k: Lock)                        // acquire(lk), also on return from sleep
    | Crit(k: Lock)                       // between acquire(lk) and release(lk)
    | SlpLock(k: Lock, ch: nat)           // sleep(chan, lk): acquire(&ptable.lock), if that is not lk
    | SlpUnlock(k: Lock, ch: nat)         // release(lk)
    | SlpMark(k: Lock, ch: nat)           // p->chan = chan; p->state = SLEEPING
    | SlpSched(k: Lock, ch: nat)          // sched()
    | SlpBack(k: Lock)                    // back from sched: p->chan = 0
    | SlpDone(k: Lock)                    // release(&ptable.lock), if that is not lk
    | WakLock(o: Option<nat>, ch: nat)    // wakeup(chan): acquire(&ptable.lock); o is a spin lock held
    | WakScan(o: Option<nat>, ch: nat)    // wakeup1
    | WakPut(o: Option<nat>)              // release(&ptable.lock)
    | YldLock(b: PC)                      // interrupted at b; yield: acquire(&ptable.lock)
    | YldMark(b: PC)                      // state = RUNNABLE
    | YldSched(b: PC)                     // sched()
    | YldBack(b: PC)                      // release(&ptable.lock)
    | FrkBack                             // a new process in forkret: release(&ptable.lock)
    | Iret(b: PC)                         // return from the interrupt
    | KillLock(q: nat)                    // kill: acquire(&ptable.lock)
    | KillMark(q: nat)                    // wake the victim if it sleeps
    | KillDone                            // release(&ptable.lock)

  /** cpu: the CPU that runs the process, if any.  intena: sched's local variable.  owed: channels
      whose condition this process made true and has not called wakeup for since.  held: channels
      whose condition this process made false and not true again since.  intr: this is an interrupt
      handler, which takes a CPU that sits in its scheduler. */
  datatype Proc = Proc(state: Procstate, chan: Option<nat>, pc: PC, cpu: Option<nat>, intena: bool,
                       owed: set<nat>, held: set<nat>, intr: bool)

  /** proc: c->proc.  inLoop: the scheduler is between acquire and release of ptable.lock.  ifl: FL_IF. */
  datatype Cpu = Cpu(proc: Option<nat>, inLoop: bool, ncli: int, intena: bool, ifl: bool)

  /** locks: the CPU that holds each lock that is held.  guard: the lock of each channel's condition.
      cond: the channels whose condition is true. */
  datatype State = State(procs: seq<Proc>, cpus: seq<Cpu>, locks: map<Lock, nat>, guard: seq<Lock>, cond: set<nat>)

  /** The locks that a process at this point holds. */
  function Holds(pc: PC): set<Lock> {
    match pc
    case Crit(k) => {k}
    case SlpLock(k, _) => {k}
    case SlpUnlock(k, _) => {k, Table}
    case SlpMark(_, _) => {Table}
    case SlpSched(_, _) => {Table}
    case SlpBack(_) => {Table}
    case SlpDone(_) => {Table}
    case WakLock(o, _) => Outer(o)
    case WakScan(o, _) => Outer(o) + {Table}
    case WakPut(o) => Outer(o) + {Table}
    case YldMark(_) => {Table}
    case YldSched(_) => {Table}
    case YldBack(_) => {Table}
    case FrkBack => {Table}
    case KillMark(_) => {Table}
    case KillDone => {Table}
    case _ => {}
  }

  function Outer(o: Option<nat>): set<Lock> {
    if o == None then {} else {Spin(o.value)}
  }

  // ---- Steps ----

  datatype Action =
    | Run(c: nat)                         // the process on CPU c does the next thing
    | Acquire(c: nat, k: Lock)            // ... calls acquire
    | Change(c: nat, ch: nat, v: bool)    // ... changes a condition under its lock
    | Sleep(c: nat, ch: nat)              // ... finds a condition false under its lock and calls sleep
    | Wake(c: nat, ch: nat)               // ... calls wakeup, or wakeup1 under ptable.lock
    | Release(c: nat)                     // ... calls release
    | Kill(c: nat, q: nat)                // ... calls kill
    | Timer(c: nat)                       // a timer interrupt makes it yield
    | Interrupt(c: nat, p: nat)           // handler p starts on CPU c, which has no process
    | Return(c: nat)                      // the handler on CPU c is done
    | Enter(c: nat)                       // scheduler: sti, acquire(&ptable.lock)
    | Pick(c: nat, p: nat)                // scheduler: switch to process p
    | Leave(c: nat)                       // scheduler: release(&ptable.lock)

  predicate HasProc(s: State, c: nat) {
    c < |s.cpus| && s.cpus[c].proc.Some? && s.cpus[c].proc.value < |s.procs|
  }

  function Cur(s: State, c: nat): Proc
    requires HasProc(s, c)
  {
    s.procs[s.cpus[c].proc.value]
  }

  function SetCur(s: State, c: nat, p: Proc): State
    requires HasProc(s, c)
  {
    s.(procs := s.procs[s.cpus[c].proc.value := p])
  }

  function Goto(s: State, c: nat, pc: PC): State
    requires HasProc(s, c)
  {
    SetCur(s, c, Cur(s, c).(pc := pc))
  }

  function Push(u: Cpu): Cpu {
    u.(intena := if u.ncli == 0 then u.ifl else u.intena, ifl := false, ncli := u.ncli + 1)
  }

  function Pop(u: Cpu): Cpu {
    u.(ncli := u.ncli - 1, ifl := if u.ncli == 1 && u.intena then true else u.ifl)
  }

  /** acquire and release by CPU c, with pushcli and popcli. */
  function Take(s: State, c: nat, k: Lock): State
    requires c < |s.cpus|
  {
    s.(locks := s.locks[k := c], cpus := s.cpus[c := Push(s.cpus[c])])
  }

  function Drop(s: State, c: nat, k: Lock): State
    requires c < |s.cpus|
  {
    s.(locks := s.locks - {k}, cpus := s.cpus[c := Pop(s.cpus[c])])
  }

  /** sched: keep intena and swtch to the scheduler of CPU c, which clears c->proc. */
  function Switch(s: State, c: nat, pc: PC): State
    requires HasProc(s, c)
  {
    var s' := SetCur(s, c, Cur(s, c).(pc := pc, cpu := None, intena := s.cpus[c].intena));
    s'.(cpus := s'.cpus[c := s'.cpus[c].(proc := None, inLoop := true)])
  }

  function Wakeup1(procs: seq<Proc>, ch: nat): seq<Proc> {
    seq(|procs|, i requires 0 <= i < |procs| =>
      if procs[i].state == SLEEPING && procs[i].chan == Some(ch) then procs[i].(state := RUNNABLE) else procs[i])
  }

  /** wakeup1 by the process on CPU c, which then owes no wakeup on ch. */
  function Scan(s: State, c: nat, ch: nat, pc: PC): State
    requires HasProc(s, c)
  {
    var s' := s.(procs := Wakeup1(s.procs, ch));
    SetCur(s', c, Cur(s', c).(pc := pc, owed := Cur(s', c).owed - {ch}))
  }

  /** The lock that the next step takes, if any. */
  function Wants(pc: PC): Option<Lock> {
    match pc
    case Acq(k) => Some(k)
    case SlpLock(_, _) => Some(Table)
    case WakLock(_, _) => Some(Table)
    case YldLock(_) => Some(Table)
    case KillLock(_) => Some(Table)
    case _ => None
  }

  predicate Enabled(s: State, a: Action) {
    match a
    case Run(c) =>
      && HasProc(s, c) && !Cur(s, c).pc.Idle? && !Cur(s, c).pc.Crit?
      && (Wants(Cur(s, c).pc).Some? ==> Wants(Cur(s, c).pc).value !in s.locks)
      && (Cur(s, c).pc.KillMark? ==> Cur(s, c).pc.q < |s.procs|)
    case Acquire(c, k) => HasProc(s, c) && Cur(s, c).pc == Idle
    case Change(c, ch, v) =>
      && HasProc(s, c) && Cur(s, c).pc.Crit? && ch < |s.guard| && s.guard[ch] == Cur(s, c).pc.k
      && (ch in s.cond) != v
    case Sleep(c, ch) =>
      && HasProc(s, c) && Cur(s, c).pc.Crit? && ch < |s.guard| && s.guard[ch] == Cur(s, c).pc.k
      && ch !in s.cond && !Cur(s, c).intr
    case Wake(c, ch) => HasProc(s, c) && (Cur(s, c).pc.Idle? || Cur(s, c).pc.Crit?)
    case Release(c) => HasProc(s, c) && Cur(s, c).pc.Crit?
    case Kill(c, q) => HasProc(s, c) && Cur(s, c).pc == Idle && q < |s.procs|
    case Timer(c) => HasProc(s, c) && s.cpus[c].ifl && !Cur(s, c).intr
    case Interrupt(c, p) =>
      && c < |s.cpus| && s.cpus[c].proc == None && !s.cpus[c].inLoop && s.cpus[c].ifl
      && p < |s.procs| && s.procs[p].intr && s.procs[p].state == HANDLER
    case Return(c) => HasProc(s, c) && Cur(s, c).intr && Cur(s, c).pc == Idle
    case Enter(c) => c < |s.cpus| && s.cpus[c].proc == None && !s.cpus[c].inLoop && Table !in s.locks
    case Pick(c, p) =>
      c < |s.cpus| && s.cpus[c].proc == None && s.cpus[c].inLoop && p < |s.procs| && s.procs[p].state == RUNNABLE
    case Leave(c) => c < |s.cpus| && s.cpus[c].proc == None && s.cpus[c].inLoop
  }

  function RunProc(s: State, c: nat): State
    requires HasProc(s, c) && (Cur(s, c).pc.KillMark? ==> Cur(s, c).pc.q < |s.procs|)
  {
    var p := Cur(s, c);
    match p.pc
    case Acq(k) => Goto(Take(s, c, k), c, Crit(k))
    case SlpLock(k, ch) => Goto(Take(s, c, Table), c, SlpUnlock(k, ch))
    case SlpUnlock(k, ch) => Goto(Drop(s, c, k), c, SlpMark(k, ch))
    case SlpMark(k, ch) => SetCur(s, c, p.(chan := Some(ch), state := SLEEPING, pc := SlpSched(k, ch)))
    case SlpSched(k, _) => Switch(s, c, SlpBack(k))
    case SlpBack(k) => SetCur(s, c, p.(chan := None, pc := SlpDone(k)))
    case SlpDone(k) => if k == Table then Goto(s, c, Crit(Table)) else Goto(Drop(s, c, Table), c, Acq(k))
    case WakLock(o, ch) => Goto(Take(s, c, Table), c, WakScan(o, ch))
    case WakScan(o, ch) => Scan(s, c, ch, WakPut(o))
    case WakPut(o) => Goto(Drop(s, c, Table), c, if o == None then Idle else Crit(Spin(o.value)))
    case YldLock(b) => Goto(Take(s, c, Table), c, YldMark(b))
    case YldMark(b) => SetCur(s, c, p.(state := RUNNABLE, pc := YldSched(b)))
    case YldSched(b) => Switch(s, c, YldBack(b))
    case YldBack(b) => Goto(Drop(s, c, Table), c, Iret(b))
    case FrkBack => Goto(Drop(s, c, Table), c, Iret(Idle))
    case Iret(b) => Goto(s.(cpus := s.cpus[c := s.cpus[c].(ifl := true)]), c, b)
    case KillLock(q) => Goto(Take(s, c, Table), c, KillMark(q))
    case KillMark(q) =>
      var v := s.procs[q];
      Goto(s.(procs := s.procs[q := if v.state == SLEEPING then v.(state := RUNNABLE) else v]), c, KillDone)
    case KillDone => Goto(Drop(s, c, Table), c, Idle)
    case _ => s
  }

  function Do(s: State, a: Action): State
    requires Enabled(s, a)
  {
    match a
    case Run(c) => RunProc(s, c)
    case Acquire(c, k) => Goto(s, c, Acq(k))
    case Change(c, ch, v) =>
      var p := Cur(s, c);
      if v then SetCur(s.(cond := s.cond + {ch}), c, p.(owed := p.owed + {ch}, held := p.held - {ch}))
      else SetCur(s.(cond := s.cond - {ch}), c, p.(held := p.held + {ch}))
    case Sleep(c, ch) => Goto(s, c, if Cur(s, c).pc.k == Table then SlpMark(Table, ch) else SlpLock(Cur(s, c).pc.k, ch))
    case Wake(c, ch) =>
      (match Cur(s, c).pc
       case Crit(Table) => Scan(s, c, ch, Crit(Table))
       case Crit(Spin(l)) => Goto(s, c, WakLock(Some(l), ch))
       case _ => Goto(s, c, WakLock(None, ch)))
    case Release(c) => Goto(Drop(s, c, Cur(s, c).pc.k), c, Idle)
    case Kill(c, q) => Goto(s, c, KillLock(q))
    case Timer(c) => Goto(s.(cpus := s.cpus[c := s.cpus[c].(ifl := false)]), c, YldLock(Cur(s, c).pc))
    case Interrupt(c, p) =>
      s.(cpus := s.cpus[c := s.cpus[c].(proc := Some(p), ifl := false)],
         procs := s.procs[p := s.procs[p].(state := RUNNING, cpu := Some(c))])
    case Return(c) =>
      var s' := SetCur(s, c, Cur(s, c).(state := HANDLER, cpu := None));
      s'.(cpus := s'.cpus[c := s'.cpus[c].(proc := None, ifl := true)])
    case Enter(c) =>
      s.(locks := s.locks[Table := c], cpus := s.cpus[c := Push(s.cpus[c].(ifl := true)).(inLoop := true)])
    case Pick(c, p) =>
      var q := s.procs[p];
      s.(cpus := s.cpus[c := s.cpus[c].(proc := Some(p), inLoop := false,
                                        intena := if q.pc.FrkBack? then s.cpus[c].intena else q.intena)],
         procs := s.procs[p := q.(state := RUNNING, cpu := Some(c))])
    case Leave(c) => s.(locks := s.locks - {Table}, cpus := s.cpus[c := Pop(s.cpus[c]).(inLoop := false)])
  }

  // ---- Panics ----

  predicate HeldBy(s: State, k: Lock, c: nat) {
    k in s.locks && s.locks[k] == c
  }

  /** The panics of release and popcli. */
  predicate ReleasePanics(s: State, c: nat, k: Lock)
    requires c < |s.cpus|
  {
    !HeldBy(s, k, c) || s.cpus[c].ifl || s.cpus[c].ncli < 1
  }

  /** The panics of acquire, release, popcli and sched, for what CPU c may do next. */
  predicate Panics(s: State, c: nat)
    requires c < |s.cpus|
  {
    if !HasProc(s, c) then
      if s.cpus[c].inLoop then ReleasePanics(s, c, Table) else HeldBy(s, Table, c)
    else
      var p := Cur(s, c);
      || (Wants(p.pc).Some? && HeldBy(s, Wants(p.pc).value, c))
      || (match p.pc
          case Crit(k) => ReleasePanics(s, c, k)
          case SlpUnlock(k, _) => ReleasePanics(s, c, k)
          case SlpDone(k) => k != Table && ReleasePanics(s, c, Table)
          case WakPut(_) => ReleasePanics(s, c, Table)
          case YldBack(_) => ReleasePanics(s, c, Table)
          case FrkBack => ReleasePanics(s, c, Table)
          case KillDone => ReleasePanics(s, c, Table)
          case SlpSched(_, _) => !HeldBy(s, Table, c) || s.cpus[c].ncli != 1 || p.state == RUNNING || s.cpus[c].ifl
          case YldSched(_) => !HeldBy(s, Table, c) || s.cpus[c].ncli != 1 || p.state == RUNNING || s.cpus[c].ifl
          case _ => false)
  }

  // ---- Runs ----

  /** Every process is new and runnable, no handler is at work, every CPU is in its scheduler, no lock is
      held.  The locks of the conditions, and which conditions hold, are arbitrary. */
  predicate Init(s: State) {
    && (forall p | 0 <= p < |s.procs| :: || s.procs[p] == Proc(RUNNABLE, None, FrkBack, None, false, {}, {}, false)
                                         || s.procs[p] == Proc(HANDLER, None, Idle, None, false, {}, {}, true))
    && (forall c | 0 <= c < |s.cpus| :: s.cpus[c] == Cpu(None, false, 0, false, true))
    && s.locks == map[]
  }

  ghost predicate ValidRun(s0: State, acts: seq<Action>)
    decreases |acts|, 0
  {
    acts == [] ||
    (ValidRun(s0, acts[..|acts| - 1]) && Enabled(Exec(s0, acts[..|acts| - 1]), acts[|acts| - 1]))
  }

  ghost function Exec(s0: State, acts: seq<Action>): State
    requires ValidRun(s0, acts)
    decreases |acts|, 1
  {
    if acts == [] then s0 else Do(Exec(s0, acts[..|acts| - 1]), acts[|acts| - 1])
  }
}
