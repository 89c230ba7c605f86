/** No wakeup is lost, and no lock operation panics, in every run. */
module SleepSafety {
  import opened Common
  import opened Sleep

  // ---- The invariant, one process, one CPU at a time ----

  /** The state of a process on a CPU. */
  function OnState(pc: PC): Procstate {
    if pc.SlpSched? then SLEEPING else if pc.YldSched? then RUNNABLE else RUNNING
  }

  /** A process is on the CPU it says it is on; off a CPU it waits at a point where it was switched out. */
  ghost predicate Placed(s: State, p: nat)
    requires p < |s.procs|
  {
    var q := s.procs[p];
    match q.cpu
    case Some(c) => c < |s.cpus| && s.cpus[c].proc == Some(p) && q.state == OnState(q.pc)
    case None =>
      || (q.state == HANDLER && q.pc == Idle)
      || (q.state == RUNNABLE && (q.pc.SlpBack? || q.pc.YldBack? || q.pc.FrkBack?))
      || (q.state == SLEEPING && q.pc.SlpBack?)
  }

  /** A point that a process of s can be at; an interrupted point holds no lock. */
  ghost predicate Fit(s: State, pc: PC) {
    match pc
    case SlpLock(k, ch) => k.Spin? && ch < |s.guard| && s.guard[ch] == k
    case SlpUnlock(k, ch) => k.Spin? && ch < |s.guard| && s.guard[ch] == k
    case SlpMark(k, ch) => ch < |s.guard|
    case SlpSched(k, ch) => ch < |s.guard|
    case YldLock(b) => Fit(s, b) && Holds(b) == {} && OnState(b) == RUNNING
    case YldMark(b) => Fit(s, b) && Holds(b) == {} && OnState(b) == RUNNING
    case YldSched(b) => Fit(s, b) && Holds(b) == {} && OnState(b) == RUNNING
    case YldBack(b) => Fit(s, b) && Holds(b) == {} && OnState(b) == RUNNING
    case Iret(b) => Fit(s, b) && Holds(b) == {} && OnState(b) == RUNNING
    case KillLock(q) => q < |s.procs|
    case KillMark(q) => q < |s.procs|
    case _ => true
  }

  ghost predicate Aimed(s: State, p: nat)
    requires p < |s.procs|
  {
    var q := s.procs[p];
    && Fit(s, q.pc)
    && (q.state == SLEEPING ==> q.chan.Some? && q.chan.value < |s.guard|)
    && (q.pc.SlpSched? ==> q.chan == Some(q.pc.ch))
  }

  function HoldsAt(s: State, c: nat): set<Lock>
    requires c < |s.cpus|
  {
    if HasProc(s, c) then Holds(Cur(s, c).pc) else if s.cpus[c].inLoop then {Table} else {}
  }

  ghost predicate CpuOk(s: State, c: nat)
    requires c < |s.cpus|
  {
    && (s.cpus[c].proc.Some? ==> s.cpus[c].proc.value < |s.procs| && !s.cpus[c].inLoop)
    && (HasProc(s, c) ==> Cur(s, c).cpu == Some(c))
    && (forall k :: HeldBy(s, k, c) <==> k in HoldsAt(s, c))
    && s.cpus[c].ncli == |HoldsAt(s, c)|
    && (s.cpus[c].ncli > 0 ==> !s.cpus[c].ifl)
  }

  /** Some process has made the condition of ch true and not called wakeup yet. */
  ghost predicate Owed(s: State, ch: nat) {
    exists q :: 0 <= q < |s.procs| && ch in s.procs[q].owed
  }

  ghost predicate Reason(s: State, ch: nat) {
    ch !in s.cond || Owed(s, ch)
  }

  /** Who is about to sleep has found the condition false; up to the release of the lock it still is. */
  ghost predicate PcReason(s: State, pc: PC) {
    && (pc.SlpLock? || pc.SlpUnlock? ==> pc.ch !in s.cond)
    && (pc.SlpMark? ==> Reason(s, pc.ch))
  }

  ghost predicate Justified(s: State, p: nat)
    requires p < |s.procs|
  {
    var q := s.procs[p];
    PcReason(s, q.pc) && (q.state == SLEEPING && q.chan.Some? ==> Reason(s, q.chan.value))
  }

  ghost predicate Inv(s: State) {
    && (forall k :: k in s.locks ==> s.locks[k] < |s.cpus|)
    && (forall p :: 0 <= p < |s.procs| ==> Placed(s, p))
    && (forall p :: 0 <= p < |s.procs| ==> Aimed(s, p))
    && (forall c :: 0 <= c < |s.cpus| ==> CpuOk(s, c))
    && (forall p :: 0 <= p < |s.procs| ==> Justified(s, p))
  }

  lemma InitInv(s: State)
    requires Init(s)
    ensures Inv(s)
  {
  }

  /** The facts about the process on CPU c that every step starts from. */
  lemma AtCpu(s: State, c: nat)
    requires Inv(s) && HasProc(s, c)
    ensures var p := s.cpus[c].proc.value;
            && Placed(s, p) && Aimed(s, p) && Justified(s, p) && CpuOk(s, c) && s.procs[p].cpu == Some(c)
  {
    assert CpuOk(s, c);
  }

  lemma SameFit(s: State, s': State, pc: PC)
    requires s'.guard == s.guard && |s'.procs| == |s.procs|
    ensures Fit(s', pc) == Fit(s, pc)
  {
    match pc
    case YldLock(b) => SameFit(s, s', b);
    case YldMark(b) => SameFit(s, s', b);
    case YldSched(b) => SameFit(s, s', b);
    case YldBack(b) => SameFit(s, s', b);
    case Iret(b) => SameFit(s, s', b);
    case _ =>
  }

  // ---- Steps of one process on its CPU ----

  /** From s to s' only process p, which is on CPU c, and CPU c changed; c may have taken or dropped
      locks.  No condition changed and p owes what it owed. */
  ghost predicate Aside(s: State, s': State, c: nat, p: nat) {
    && HasProc(s, c) && s.cpus[c].proc == Some(p) && p < |s.procs|
    && |s'.procs| == |s.procs| && |s'.cpus| == |s.cpus| && s'.guard == s.guard
    && (forall q :: 0 <= q < |s.procs| && q != p ==> s'.procs[q] == s.procs[q])
    && (forall d :: 0 <= d < |s.cpus| && d != c ==> s'.cpus[d] == s.cpus[d])
    && (forall k, d :: 0 <= d < |s.cpus| && d != c ==> (HeldBy(s', k, d) <==> HeldBy(s, k, d)))
    && (forall k :: k in s'.locks ==> s'.locks[k] < |s.cpus|)
    && s'.cond == s.cond && s'.procs[p].owed == s.procs[p].owed
  }

  lemma OwedKept(s: State, s': State)
    requires |s'.procs| == |s.procs| && forall q :: 0 <= q < |s.procs| ==> s'.procs[q].owed == s.procs[q].owed
    ensures forall ch :: Owed(s', ch) == Owed(s, ch)
  {
    forall ch ensures Owed(s', ch) == Owed(s, ch) {
      if Owed(s, ch) { var q :| 0 <= q < |s.procs| && ch in s.procs[q].owed; assert ch in s'.procs[q].owed; }
    }
  }

  /** Then every other process and CPU is as the invariant wants it. */
  lemma AsideKept(s: State, s': State, c: nat, p: nat)
    requires Inv(s) && Aside(s, s', c, p) && s'.cpus[c].proc == Some(p)
    ensures forall q :: 0 <= q < |s.procs| && q != p ==> Placed(s', q) && Aimed(s', q) && Justified(s', q)
    ensures forall d :: 0 <= d < |s.cpus| && d != c ==> CpuOk(s', d)
    ensures forall ch :: Owed(s', ch) == Owed(s, ch)
  {
    OwedKept(s, s');
    forall q | 0 <= q < |s.procs| && q != p ensures Placed(s', q) && Aimed(s', q) && Justified(s', q) {
      assert Placed(s, q) && Aimed(s, q) && Justified(s, q);
      SameFit(s, s', s.procs[q].pc);
    }
    forall d | 0 <= d < |s.cpus| && d != c ensures CpuOk(s', d) {
      assert CpuOk(s, d) && CpuOk(s, c);
    }
  }

  /** What the process on CPU c must be able to do at pc in state s. */
  ghost predicate CanBe(s: State, pc: PC) {
    Fit(s, pc) && PcReason(s, pc) && OnState(pc) == RUNNING
  }

  /** acquire: the process goes on with one lock more. */
  lemma TakeStep(s: State, c: nat, k: Lock, pc: PC)
    requires Inv(s) && HasProc(s, c) && k !in s.locks && Cur(s, c).state == RUNNING
    requires Holds(pc) == Holds(Cur(s, c).pc) + {k} && CanBe(s, pc)
    ensures Inv(Goto(Take(s, c, k), c, pc))
  {
    hide Fit, PcReason, Reason, Holds, OnState;
    var s', p := Goto(Take(s, c, k), c, pc), s.cpus[c].proc.value;
    AtCpu(s, c);
    assert k !in Holds(Cur(s, c).pc) by { assert HeldBy(s, k, c) <==> k in HoldsAt(s, c); }
    OwnStep(s, s', c, p);
  }

  /** release: the process goes on with one lock less. */
  lemma DropStep(s: State, c: nat, k: Lock, pc: PC)
    requires Inv(s) && HasProc(s, c) && k in Holds(Cur(s, c).pc) && Cur(s, c).state == RUNNING
    requires Holds(pc) == Holds(Cur(s, c).pc) - {k} && CanBe(s, pc)
    ensures Inv(Goto(Drop(s, c, k), c, pc))
  {
    hide Fit, PcReason, Reason, Holds, OnState;
    var s', p := Goto(Drop(s, c, k), c, pc), s.cpus[c].proc.value;
    AtCpu(s, c);
    assert HeldBy(s, k, c) by { assert HeldBy(s, k, c) <==> k in HoldsAt(s, c); }
    assert |Holds(pc)| == |Holds(Cur(s, c).pc)| - 1;
    OwnStep(s, s', c, p);
  }

  /** A step without a lock operation.  The interrupt flag may change when no lock is held. */
  lemma MoveStep(s: State, c: nat, q: Proc, ifl: bool)
    requires Inv(s) && HasProc(s, c) && q.cpu == Some(c) && q.owed == Cur(s, c).owed && q.state == OnState(q.pc)
    requires Holds(q.pc) == Holds(Cur(s, c).pc) && Fit(s, q.pc) && PcReason(s, q.pc)
    requires ifl != s.cpus[c].ifl ==> Holds(q.pc) == {}
    requires q.state == SLEEPING ==> q.chan == Some(q.pc.ch) && Reason(s, q.pc.ch)
    ensures Inv(SetCur(s.(cpus := s.cpus[c := s.cpus[c].(ifl := ifl)]), c, q))
  {
    var s', p := SetCur(s.(cpus := s.cpus[c := s.cpus[c].(ifl := ifl)]), c, q), s.cpus[c].proc.value;
    AtCpu(s, c);
    OwnStep(s, s', c, p);
  }

  /** What such a step still has to show of its own process and CPU. */
  lemma OwnStep(s: State, s': State, c: nat, p: nat)
    requires Inv(s) && Aside(s, s', c, p)
    requires var q := s'.procs[p];
             && s'.cpus[c].proc == Some(p) && !s'.cpus[c].inLoop && q.cpu == Some(c) && q.state == OnState(q.pc)
             && Fit(s, q.pc) && PcReason(s, q.pc)
             && (q.state == SLEEPING ==> q.chan == Some(q.pc.ch) && Reason(s, q.pc.ch))
             && (forall k :: HeldBy(s', k, c) <==> k in Holds(q.pc)) && s'.cpus[c].ncli == |Holds(q.pc)|
             && (s'.cpus[c].ncli > 0 ==> !s'.cpus[c].ifl)
    ensures Inv(s')
  {
    AsideKept(s, s', c, p);
    SameFit(s, s', s'.procs[p].pc);
    assert Placed(s', p) && Aimed(s', p) && Justified(s', p) && CpuOk(s', c);
  }

  // ---- Changing a condition ----

  /** Nobody else is between finding a condition false and releasing its lock while c holds the lock. */
  lemma LockExcludes(s: State, c: nat, k: Lock, q: nat)
    requires Inv(s) && HasProc(s, c) && k in Holds(Cur(s, c).pc) && q < |s.procs| && s.cpus[c].proc != Some(q)
    ensures s.procs[q].cpu.Some? ==> k !in Holds(s.procs[q].pc)
  {
    assert CpuOk(s, c) && Placed(s, q);
    assert HeldBy(s, k, c) <==> k in HoldsAt(s, c);
    if s.procs[q].cpu.Some? {
      var d := s.procs[q].cpu.value;
      assert CpuOk(s, d);
      assert HeldBy(s, k, d) <==> k in HoldsAt(s, d);
    }
  }

  lemma ChangeInv(s: State, c: nat, ch: nat, v: bool)
    requires Inv(s) && Enabled(s, Change(c, ch, v))
    ensures Inv(Do(s, Change(c, ch, v)))
  {
    var s', p := Do(s, Change(c, ch, v)), s.cpus[c].proc.value;
    AtCpu(s, c);
    forall x | Owed(s, x) ensures Owed(s', x) {
      var q :| 0 <= q < |s.procs| && x in s.procs[q].owed;
      assert x in s'.procs[q].owed;
    }
    assert v ==> ch in s'.procs[p].owed;
    forall q | 0 <= q < |s.procs| ensures Placed(s', q) && Aimed(s', q) {
      assert Placed(s, q) && Aimed(s, q);
      SameFit(s, s', s.procs[q].pc);
    }
    forall d | 0 <= d < |s.cpus| ensures CpuOk(s', d) {
      assert CpuOk(s, d);
      assert forall k :: HeldBy(s', k, d) == HeldBy(s, k, d);
    }
    forall q | 0 <= q < |s.procs| ensures Justified(s', q) {
      assert Justified(s, q) && Aimed(s, q) && Placed(s, q);
      if q != p { LockExcludes(s, c, s.guard[ch], q); }
    }
  }

  // ---- Waking processes ----

  /** Only SLEEPING changes, to RUNNABLE. */
  ghost predicate Woken(s: State, s': State) {
    && s' == s.(procs := s'.procs) && |s'.procs| == |s.procs|
    && forall q :: 0 <= q < |s.procs| ==>
         s'.procs[q] == s.procs[q] || (s.procs[q].state == SLEEPING && s'.procs[q] == s.procs[q].(state := RUNNABLE))
  }

  /** While CPU c holds ptable.lock, the processes that can be woken are switched out. */
  lemma WokenInv(s: State, s': State, c: nat)
    requires Inv(s) && Woken(s, s') && HasProc(s, c) && Table in Holds(Cur(s, c).pc) && Cur(s, c).state == RUNNING
    ensures Inv(s') && HasProc(s', c) && Cur(s', c) == Cur(s, c)
  {
    OwedKept(s, s');
    forall q | 0 <= q < |s.procs| ensures Placed(s', q) && Aimed(s', q) && Justified(s', q) {
      assert Placed(s, q) && Aimed(s, q) && Justified(s, q);
      SameFit(s, s', s.procs[q].pc);
      if s.cpus[c].proc != Some(q) { LockExcludes(s, c, Table, q); }
    }
    forall d | 0 <= d < |s.cpus| ensures CpuOk(s', d) {
      assert CpuOk(s, d);
      assert forall k :: HeldBy(s', k, d) == HeldBy(s, k, d);
    }
  }

  /** After wakeup1 nobody sleeps on the channel, and nobody is on the way to: only a process that
      still holds the condition's lock, and has just found the condition false, will. */
  lemma ScanInv(s: State, c: nat, ch: nat, pc: PC)
    requires Inv(s) && HasProc(s, c) && Table in Holds(Cur(s, c).pc) && Cur(s, c).state == RUNNING
    requires Holds(pc) == Holds(Cur(s, c).pc) && CanBe(s, pc) && !pc.SlpMark?
    ensures Inv(Scan(s, c, ch, pc))
    ensures forall q :: 0 <= q < |s.procs| ==> !Committed(Scan(s, c, ch, pc), q, ch)
  {
    var s1 := s.(procs := Wakeup1(s.procs, ch));
    WokenInv(s, s1, c);
    var s', p := Scan(s, c, ch, pc), s.cpus[c].proc.value;
    AtCpu(s1, c);
    forall x | x != ch && Owed(s1, x) ensures Owed(s', x) {
      var q :| 0 <= q < |s.procs| && x in s1.procs[q].owed;
      assert x in s'.procs[q].owed;
    }
    forall q | 0 <= q < |s.procs| ensures Placed(s', q) && Aimed(s', q) {
      assert Placed(s1, q) && Aimed(s1, q);
      SameFit(s1, s', s'.procs[q].pc);
      SameFit(s, s', pc);
    }
    forall d | 0 <= d < |s.cpus| ensures CpuOk(s', d) {
      assert CpuOk(s1, d);
      assert forall k :: HeldBy(s', k, d) == HeldBy(s1, k, d);
    }
    forall q | 0 <= q < |s.procs| ensures Justified(s', q) && !Committed(s', q, ch) {
      assert Justified(s1, q) && Placed(s1, q) && Aimed(s, q);
      if q != p { LockExcludes(s1, c, Table, q); }
    }
  }

  /** The process sleeps on ch, or has released the condition's lock and is about to. */
  ghost predicate Committed(s: State, q: nat, ch: nat)
    requires q < |s.procs|
  {
    || (s.procs[q].state == SLEEPING && s.procs[q].chan == Some(ch))
    || (s.procs[q].pc.SlpMark? && s.procs[q].pc.ch == ch)
  }

  lemma KillMarkInv(s: State, c: nat)
    requires Inv(s) && Enabled(s, Run(c)) && Cur(s, c).pc.KillMark?
    ensures Inv(Do(s, Run(c)))
  {
    hide Inv;
    AtCpu(s, c);
    var q := Cur(s, c).pc.q;
    var v := s.procs[q];
    var s1 := s.(procs := s.procs[q := if v.state == SLEEPING then v.(state := RUNNABLE) else v]);
    WokenInv(s, s1, c);
    MoveStep(s1, c, Cur(s1, c).(pc := KillDone), s1.cpus[c].ifl);
    assert s1.cpus[c := s1.cpus[c].(ifl := s1.cpus[c].ifl)] == s1.cpus;
  }

  // ---- Processes and schedulers ----

  /** sched: the process leaves its CPU; ptable.lock stays with the CPU. */
  lemma SwitchInv(s: State, c: nat)
    requires Inv(s) && Enabled(s, Run(c)) && (Cur(s, c).pc.SlpSched? || Cur(s, c).pc.YldSched?)
    ensures Inv(Do(s, Run(c)))
  {
    AtCpu(s, c);
    var s' := Do(s, Run(c));
    OwedKept(s, s');
    forall d | 0 <= d < |s.cpus| ensures CpuOk(s', d) {
      assert CpuOk(s, d);
      assert forall k :: HeldBy(s', k, d) == HeldBy(s, k, d);
    }
    forall q | 0 <= q < |s.procs| ensures Placed(s', q) && Aimed(s', q) && Justified(s', q) {
      assert Placed(s, q) && Aimed(s, q) && Justified(s, q);
      SameFit(s, s', s.procs[q].pc);
      SameFit(s, s', s'.procs[q].pc);
    }
  }

  /** A runnable process that the scheduler finds is off every CPU. */
  lemma PickInv(s: State, c: nat, p: nat)
    requires Inv(s) && Enabled(s, Pick(c, p))
    ensures Inv(Do(s, Pick(c, p)))
  {
    var s' := Do(s, Pick(c, p));
    RunnableIsOff(s, c, p);
    OwedKept(s, s');
    assert Placed(s, p) && CpuOk(s, c);
    forall d | 0 <= d < |s.cpus| ensures CpuOk(s', d) {
      assert CpuOk(s, d);
      assert forall k :: HeldBy(s', k, d) == HeldBy(s, k, d);
    }
    forall q | 0 <= q < |s.procs| ensures Placed(s', q) && Aimed(s', q) && Justified(s', q) {
      assert Placed(s, q) && Aimed(s, q) && Justified(s, q);
      SameFit(s, s', s.procs[q].pc);
    }
  }

  lemma RunnableIsOff(s: State, c: nat, p: nat)
    requires Inv(s) && Enabled(s, Pick(c, p))
    ensures s.procs[p].cpu == None
  {
    assert Placed(s, p) && CpuOk(s, c);
    assert HeldBy(s, Table, c) <==> Table in HoldsAt(s, c);
    var at := s.procs[p].cpu;
    assert at.Some? ==> CpuOk(s, at.value);
    assert at.Some? ==> (HeldBy(s, Table, at.value) <==> Table in HoldsAt(s, at.value));
  }

  lemma SchedulerInv(s: State, a: Action)
    requires Inv(s) && Enabled(s, a) && (a.Enter? || a.Leave?)
    ensures Inv(Do(s, a))
  {
    var s', c := Do(s, a), a.c;
    OwedKept(s, s');
    assert CpuOk(s, c);
    assert HeldBy(s, Table, c) <==> Table in HoldsAt(s, c);
    forall d | 0 <= d < |s.cpus| ensures CpuOk(s', d) {
      assert CpuOk(s, d);
      assert forall k :: k != Table || d != c ==> HeldBy(s', k, d) == HeldBy(s, k, d);
    }
    forall q | 0 <= q < |s.procs| ensures Placed(s', q) && Aimed(s', q) && Justified(s', q) {
      assert Placed(s, q) && Aimed(s, q) && Justified(s, q);
      SameFit(s, s', s.procs[q].pc);
    }
  }

  /** An interrupt handler comes to a CPU between two rounds of its scheduler, and goes. */
  lemma HandlerInv(s: State, a: Action)
    requires Inv(s) && Enabled(s, a) && (a.Interrupt? || a.Return?)
    ensures Inv(Do(s, a))
  {
    var s', c := Do(s, a), a.c;
    OwedKept(s, s');
    assert CpuOk(s, c);
    if a.Interrupt? { assert Placed(s, a.p); } else { AtCpu(s, c); }
    forall d | 0 <= d < |s.cpus| ensures CpuOk(s', d) {
      assert CpuOk(s, d);
      assert forall k :: HeldBy(s', k, d) == HeldBy(s, k, d);
    }
    forall q | 0 <= q < |s.procs| ensures Placed(s', q) && Aimed(s', q) && Justified(s', q) {
      assert Placed(s, q) && Aimed(s, q) && Justified(s, q);
      SameFit(s, s', s.procs[q].pc);
    }
  }

  // ---- Every step ----

  /** Where a step that takes a lock leads. */
  function AfterTake(pc: PC): PC {
    match pc
    case Acq(k) => Crit(k)
    case SlpLock(k, ch) => SlpUnlock(k, ch)
    case WakLock(o, ch) => WakScan(o, ch)
    case YldLock(b) => YldMark(b)
    case KillLock(q) => KillMark(q)
    case _ => pc
  }

  lemma TakeFacts(s: State, pc: PC)
    requires Wants(pc).Some? && Fit(s, pc) && PcReason(s, pc)
    ensures Holds(AfterTake(pc)) == Holds(pc) + {Wants(pc).value} && CanBe(s, AfterTake(pc)) && OnState(pc) == RUNNING
  {
  }

  lemma TakingInv(s: State, c: nat)
    requires Inv(s) && Enabled(s, Run(c)) && Wants(Cur(s, c).pc).Some?
    ensures Inv(Do(s, Run(c)))
  {
    hide Inv, Take, Goto, Fit, PcReason, Holds, CanBe;
    AtCpu(s, c);
    var pc := Cur(s, c).pc;
    TakeFacts(s, pc);
    TakeStep(s, c, Wants(pc).value, AfterTake(pc));
  }

  /** The lock that the next step releases, if any, and where it leads. */
  function Gives(pc: PC): Option<Lock> {
    match pc
    case SlpUnlock(k, _) => Some(k)
    case SlpDone(k) => if k == Table then None else Some(Table)
    case WakPut(_) => Some(Table)
    case YldBack(_) => Some(Table)
    case FrkBack => Some(Table)
    case KillDone => Some(Table)
    case _ => None
  }

  function AfterDrop(pc: PC): PC {
    match pc
    case SlpUnlock(k, ch) => SlpMark(k, ch)
    case SlpDone(k) => Acq(k)
    case WakPut(o) => if o == None then Idle else Crit(Spin(o.value))
    case YldBack(b) => Iret(b)
    case FrkBack => Iret(Idle)
    case KillDone => Idle
    case _ => pc
  }

  lemma DropFacts(s: State, pc: PC)
    requires Gives(pc).Some? && Fit(s, pc) && PcReason(s, pc)
    ensures Gives(pc).value in Holds(pc) && Holds(AfterDrop(pc)) == Holds(pc) - {Gives(pc).value}
    ensures CanBe(s, AfterDrop(pc)) && OnState(pc) == RUNNING
  {
  }

  lemma DroppingInv(s: State, c: nat)
    requires Inv(s) && Enabled(s, Run(c)) && Gives(Cur(s, c).pc).Some?
    ensures Inv(Do(s, Run(c)))
  {
    hide Inv, Drop, Goto, Fit, PcReason, Holds, CanBe;
    AtCpu(s, c);
    var pc := Cur(s, c).pc;
    DropFacts(s, pc);
    DropStep(s, c, Gives(pc).value, AfterDrop(pc));
  }

  /** The steps that neither take nor release a lock and do not end in the scheduler. */
  lemma QuietRunInv(s: State, c: nat)
    requires Inv(s) && Enabled(s, Run(c)) && Wants(Cur(s, c).pc) == None && Gives(Cur(s, c).pc) == None
    requires Cur(s, c).pc.SlpMark? || Cur(s, c).pc.SlpBack? || Cur(s, c).pc.SlpDone? || Cur(s, c).pc.YldMark?
    ensures Inv(Do(s, Run(c)))
  {
    hide Inv;
    AtCpu(s, c);
    var p := Cur(s, c);
    match p.pc
    case SlpMark(k, ch) => QuietStep(s, c, p.(chan := Some(ch), state := SLEEPING, pc := SlpSched(k, ch)));
    case SlpBack(k) => QuietStep(s, c, p.(chan := None, pc := SlpDone(k)));
    case SlpDone(k) => QuietStep(s, c, p.(pc := Crit(Table)));
    case YldMark(b) => QuietStep(s, c, p.(state := RUNNABLE, pc := YldSched(b)));
    case _ =>
  }

  lemma IretInv(s: State, c: nat)
    requires Inv(s) && Enabled(s, Run(c)) && Cur(s, c).pc.Iret?
    ensures Inv(Do(s, Run(c)))
  {
    hide Inv;
    AtCpu(s, c);
    var p := Cur(s, c);
    FreeReason(s, p.pc.b);
    MoveStep(s, c, p.(pc := p.pc.b), true);
  }

  lemma WakeScanInv(s: State, c: nat)
    requires Inv(s) && Enabled(s, Run(c)) && Cur(s, c).pc.WakScan?
    ensures Inv(Do(s, Run(c)))
  {
    hide Inv;
    AtCpu(s, c);
    ScanInv(s, c, Cur(s, c).pc.ch, WakPut(Cur(s, c).pc.o));
  }

  lemma RunStepInv(s: State, c: nat)
    requires Inv(s) && Enabled(s, Run(c))
    ensures Inv(Do(s, Run(c)))
  {
    hide Inv, Do;
    var pc := Cur(s, c).pc;
    if Wants(pc).Some? { TakingInv(s, c); }
    else if Gives(pc).Some? { DroppingInv(s, c); }
    else if pc.Iret? { IretInv(s, c); }
    else if pc.WakScan? { WakeScanInv(s, c); }
    else if pc.KillMark? { KillMarkInv(s, c); }
    else if pc.SlpSched? || pc.YldSched? { SwitchInv(s, c); }
    else { QuietRunInv(s, c); }
  }

  lemma QuietStep(s: State, c: nat, q: Proc)
    requires Inv(s) && HasProc(s, c) && q.cpu == Some(c) && q.owed == Cur(s, c).owed && q.state == OnState(q.pc)
    requires Holds(q.pc) == Holds(Cur(s, c).pc) && Fit(s, q.pc) && PcReason(s, q.pc)
    requires q.state == SLEEPING ==> q.chan == Some(q.pc.ch) && Reason(s, q.pc.ch)
    ensures Inv(SetCur(s, c, q))
  {
    hide Inv;
    MoveStep(s, c, q, s.cpus[c].ifl);
    assert s.cpus[c := s.cpus[c].(ifl := s.cpus[c].ifl)] == s.cpus;
  }

  /** A point without locks is not on the way to sleep. */
  lemma FreeReason(s: State, b: PC)
    requires Holds(b) == {}
    ensures PcReason(s, b)
  {
    assert forall k: Lock :: {k} != {};
  }

  lemma CallInv(s: State, a: Action)
    requires Inv(s) && Enabled(s, a) && (a.Acquire? || a.Sleep? || a.Wake? || a.Release? || a.Kill?)
    ensures Inv(Do(s, a))
  {
    hide Inv;
    AtCpu(s, a.c);
    var p := Cur(s, a.c);
    match a
    case Acquire(c, k) => QuietStep(s, c, p.(pc := Acq(k)));
    case Sleep(c, ch) => QuietStep(s, c, p.(pc := if p.pc.k == Table then SlpMark(Table, ch) else SlpLock(p.pc.k, ch)));
    case Wake(c, ch) =>
      if p.pc == Crit(Table) { ScanInv(s, c, ch, Crit(Table)); }
      else if p.pc.Crit? { QuietStep(s, c, p.(pc := WakLock(Some(p.pc.k.l), ch))); }
      else { QuietStep(s, c, p.(pc := WakLock(None, ch))); }
    case Release(c) => DropStep(s, c, p.pc.k, Idle);
    case Kill(c, q) => QuietStep(s, c, p.(pc := KillLock(q)));
    case _ =>
  }

  lemma TimerInv(s: State, c: nat)
    requires Inv(s) && Enabled(s, Timer(c))
    ensures Inv(Do(s, Timer(c)))
  {
    hide Inv;
    AtCpu(s, c);
    var p := Cur(s, c);
    assert Holds(p.pc) == {};
    MoveStep(s, c, p.(pc := YldLock(p.pc)), false);
  }

  lemma StepInv(s: State, a: Action)
    requires Inv(s) && Enabled(s, a)
    ensures Inv(Do(s, a))
  {
    hide Inv, Do;
    match a
    case Run(c) => RunStepInv(s, c);
    case Change(c, ch, v) => ChangeInv(s, c, ch, v);
    case Timer(c) => TimerInv(s, c);
    case Interrupt(_, _) => HandlerInv(s, a);
    case Return(_) => HandlerInv(s, a);
    case Enter(_) => SchedulerInv(s, a);
    case Pick(c, p) => PickInv(s, c, p);
    case Leave(_) => SchedulerInv(s, a);
    case _ => CallInv(s, a);
  }

  lemma {:induction false} RunInv(s0: State, acts: seq<Action>)
    requires Init(s0) && ValidRun(s0, acts)
    ensures Inv(Exec(s0, acts))
    decreases |acts|
  {
    hide Inv, Do, Enabled;
    if acts == [] {
      InitInv(s0);
    } else {
      RunInv(s0, acts[..|acts| - 1]);
      StepInv(Exec(s0, acts[..|acts| - 1]), acts[|acts| - 1]);
    }
  }

  // ---- What holds in every state of every run ----

  /** No lost wakeup: if the condition of a channel holds and nobody who made it true still owes its
      wakeup, nobody sleeps on the channel, whatever the condition, its lock and the interleaving. */
  lemma NoLostWakeup(s0: State, acts: seq<Action>, ch: nat, p: nat)
    requires Init(s0) && ValidRun(s0, acts)
    requires ch in Exec(s0, acts).cond && p < |Exec(s0, acts).procs|
    requires var s := Exec(s0, acts); forall q :: 0 <= q < |s.procs| ==> ch !in s.procs[q].owed
    ensures var q := Exec(s0, acts).procs[p]; !(q.state == SLEEPING && q.chan == Some(ch))
  {
    RunInv(s0, acts);
    assert Justified(Exec(s0, acts), p);
  }

  /** Whoever sleeps has a reason: its condition is false, or a wakeup is owed. */
  lemma SleepersHaveAReason(s0: State, acts: seq<Action>, p: nat)
    requires Init(s0) && ValidRun(s0, acts) && p < |Exec(s0, acts).procs| && Exec(s0, acts).procs[p].state == SLEEPING
    ensures var s := Exec(s0, acts); s.procs[p].chan.Some? && Reason(s, s.procs[p].chan.value)
  {
    RunInv(s0, acts);
    var s := Exec(s0, acts);
    assert Justified(s, p) && Aimed(s, p);
  }

  /** A wakeup reaches everybody who has gone to sleep, or has let go of the condition's lock in order
      to, since the change it stands for: right after it nobody is left of either kind. */
  lemma WakeupReachesAll(s0: State, acts: seq<Action>, a: Action, ch: nat, p: nat)
    requires Init(s0) && ValidRun(s0, acts) && Enabled(Exec(s0, acts), a) && p < |Exec(s0, acts).procs|
    requires var s := Exec(s0, acts);
             || (a.Run? && Cur(s, a.c).pc.WakScan? && Cur(s, a.c).pc.ch == ch)
             || (a == Wake(a.c, ch) && Cur(s, a.c).pc == Crit(Table))
    ensures var s' := Do(Exec(s0, acts), a); p < |s'.procs| && !Committed(s', p, ch)
  {
    hide Inv;
    RunInv(s0, acts);
    var s := Exec(s0, acts);
    AtCpu(s, a.c);
    if a.Run? { ScanInv(s, a.c, ch, WakPut(Cur(s, a.c).pc.o)); } else { ScanInv(s, a.c, ch, Crit(Table)); }
  }

  ghost predicate OnExactlyOneCpu(s: State, p: nat) {
    && (exists c :: 0 <= c < |s.cpus| && s.cpus[c].proc == Some(p))
    && (forall c, d :: 0 <= c < d < |s.cpus| ==> !(s.cpus[c].proc == Some(p) && s.cpus[d].proc == Some(p)))
  }

  /** A running process is on exactly one CPU. */
  lemma RunningOnOneCpu(s0: State, acts: seq<Action>, p: nat)
    requires Init(s0) && ValidRun(s0, acts) && p < |Exec(s0, acts).procs| && Exec(s0, acts).procs[p].state == RUNNING
    ensures OnExactlyOneCpu(Exec(s0, acts), p)
  {
    hide Inv, ValidRun, Exec, Init, OnExactlyOneCpu;
    RunInv(s0, acts);
    OneCpu(Exec(s0, acts), p);
  }

  lemma OneCpu(s: State, p: nat)
    requires Inv(s) && p < |s.procs| && s.procs[p].state == RUNNING
    ensures OnExactlyOneCpu(s, p)
  {
    assert Placed(s, p);
    forall c | 0 <= c < |s.cpus| && s.cpus[c].proc == Some(p) ensures s.procs[p].cpu == Some(c) {
      assert CpuOk(s, c);
    }
  }

  /** acquire never finds its own CPU holding the lock, release always does, popcli never finds
      interrupts on or underflows, and sched always finds ptable.lock held, nothing else held,
      interrupts off and the state changed. */
  lemma NoLockPanic(s0: State, acts: seq<Action>, c: nat)
    requires Init(s0) && ValidRun(s0, acts) && c < |Exec(s0, acts).cpus|
    ensures !Panics(Exec(s0, acts), c)
  {
    hide Exec, ValidRun, Init;
    RunInv(s0, acts);
    CpuNeverPanics(Exec(s0, acts), c);
  }

  lemma CpuNeverPanics(s: State, c: nat)
    requires Inv(s) && c < |s.cpus|
    ensures !Panics(s, c)
  {
    assert CpuOk(s, c);
    assert forall k :: HeldBy(s, k, c) <==> k in HoldsAt(s, c);
    if HasProc(s, c) { AtCpu(s, c); }
  }
}
