/** sleeplock.c as a client of sleep and wakeup.  The condition of a sleep lock is that it is free,
    its channel is the lock itself, and its own spin lock guards it. */
module SleepLocks {
  import opened Common
  import opened Sleep
  import opened SleepSafety

  /** Channel l is a sleep lock: it has a spin lock of its own and is free at first. */
  predicate IsSleepLock(s: State, l: nat) {
    && l < |s.guard| && s.guard[l] == Spin(l) && l in s.cond
    && forall ch | 0 <= ch < |s.guard| :: s.guard[ch] == Spin(l) ==> ch == l
  }

  /** What acquiresleep and releasesleep keep to, and their callers: only the holder clears
      lk->locked, and wakeup is called before lk->lk is released.  Everything else in the system may
      do anything. */
  predicate Follows(s: State, a: Action, l: nat)
    requires Enabled(s, a)
  {
    match a
    case Change(c, ch, v) => ch == l && v ==> l in Cur(s, c).held
    case Release(c) => l !in Cur(s, c).owed
    case Sleep(c, _) => l !in Cur(s, c).owed
    case _ => true
  }

  ghost predicate SleepLockRun(s0: State, acts: seq<Action>, l: nat)
    decreases |acts|
  {
    && ValidRun(s0, acts)
    && (acts != [] ==>
          && SleepLockRun(s0, acts[..|acts| - 1], l)
          && Follows(Exec(s0, acts[..|acts| - 1]), acts[|acts| - 1], l))
  }

  /** Between lk->locked = 0 and the end of wakeup(lk). */
  predicate Waking(pc: PC, l: nat) {
    pc == Crit(Spin(l)) || ((pc.WakLock? || pc.WakScan? || pc.WakPut?) && pc.o == Some(l))
  }

  ghost predicate HeldOnce(s: State, l: nat) {
    && (forall p :: 0 <= p < |s.procs| && l in s.procs[p].held ==> l !in s.cond)
    && (forall p, q :: 0 <= p < q < |s.procs| ==> !(l in s.procs[p].held && l in s.procs[q].held))
    && (l !in s.cond ==> exists p :: 0 <= p < |s.procs| && l in s.procs[p].held)
  }

  ghost predicate LockInv(s: State, l: nat) {
    && HeldOnce(s, l)
    && (forall p :: 0 <= p < |s.procs| && l in s.procs[p].owed ==> Waking(s.procs[p].pc, l))
  }

  predicate OnCpu(s: State, c: nat, p: nat) {
    HasProc(s, c) && s.cpus[c].proc.value == p
  }

  /** All that a step of CPU c may change of the conditions, of the debts and of the points of code,
      unless it changes a condition: the process on c moves on and pays debts. */
  ghost predicate SameBooks(s: State, s': State, c: nat) {
    && |s'.procs| == |s.procs| && s'.cond == s.cond && s'.guard == s.guard
    && (forall q :: 0 <= q < |s.procs| ==> s'.procs[q].held == s.procs[q].held && s'.procs[q].owed <= s.procs[q].owed)
    && (forall q :: 0 <= q < |s.procs| && !OnCpu(s, c, q) ==> s'.procs[q].pc == s.procs[q].pc)
  }

  lemma RunBooks(s: State, c: nat)
    requires HasProc(s, c) && (Cur(s, c).pc.KillMark? ==> Cur(s, c).pc.q < |s.procs|)
    ensures SameBooks(s, RunProc(s, c), c)
  {
    hide SameBooks;
    match Cur(s, c).pc
    case WakScan(o, ch) => ScanBooks(s, c, ch, WakPut(o));
    case KillMark(_) => KillBooks(s, c);
    case _ => PutBooks(s, RunProc(s, c), c);
  }

  lemma PutBooks(s: State, s': State, c: nat)
    requires HasProc(s, c) && |s'.procs| == |s.procs| && s'.cond == s.cond && s'.guard == s.guard
    requires var p := s.cpus[c].proc.value;
             && s'.procs == s.procs[p := s'.procs[p]] && s'.procs[p].held == s.procs[p].held
             && s'.procs[p].owed == s.procs[p].owed
    ensures SameBooks(s, s', c)
  {
  }

  lemma ScanBooks(s: State, c: nat, ch: nat, pc: PC)
    requires HasProc(s, c)
    ensures SameBooks(s, Scan(s, c, ch, pc), c)
  {
  }

  lemma KillBooks(s: State, c: nat)
    requires HasProc(s, c) && Cur(s, c).pc.KillMark? && Cur(s, c).pc.q < |s.procs|
    ensures SameBooks(s, RunProc(s, c), c)
  {
  }

  lemma Books(s: State, a: Action)
    requires Enabled(s, a) && !a.Change?
    ensures SameBooks(s, Do(s, a), a.c)
  {
    hide RunProc, Scan, Wakeup1;
    if a.Run? { RunBooks(s, a.c); }
    if a.Wake? && Cur(s, a.c).pc == Crit(Table) { ScanBooks(s, a.c, a.ch, Crit(Table)); }
  }

  /** The process that runs pays its debt in wakeup and leaves wakeup only then. */
  lemma RunWaking(s: State, c: nat, l: nat)
    requires Enabled(s, Run(c)) && Waking(Cur(s, c).pc, l) && l in Cur(s, c).owed
    ensures |RunProc(s, c).procs| == |s.procs|
    ensures var p := RunProc(s, c).procs[s.cpus[c].proc.value]; l in p.owed ==> Waking(p.pc, l)
  {
  }

  lemma CallWaking(s: State, a: Action, l: nat)
    requires Enabled(s, a) && Follows(s, a, l) && !a.Run? && HasProc(s, a.c)
    requires l in Cur(s, a.c).owed && Waking(Cur(s, a.c).pc, l)
    requires a.Timer? ==> Holds(Cur(s, a.c).pc) == {}
    ensures |Do(s, a).procs| == |s.procs|
    ensures Waking(Do(s, a).procs[s.cpus[a.c].proc.value].pc, l)
  {
    hide RunProc, Wakeup1;
  }

  /** A debt stays where it is until wakeup pays it. */
  lemma OwedStep(s: State, a: Action, l: nat, p: nat)
    requires LockInv(s, l) && Enabled(s, a) && Follows(s, a, l) && p < |s.procs| && !a.Change?
    requires a.Timer? ==> Holds(Cur(s, a.c).pc) == {}
    ensures |Do(s, a).procs| == |s.procs| && (l in Do(s, a).procs[p].owed ==> Waking(Do(s, a).procs[p].pc, l))
  {
    hide Do, HeldOnce, Waking, Follows;
    Books(s, a);
    if l in s.procs[p].owed && OnCpu(s, a.c, p) {
      StepWaking(s, a, l);
    }
  }

  lemma StepWaking(s: State, a: Action, l: nat)
    requires Enabled(s, a) && Follows(s, a, l) && !a.Change? && HasProc(s, a.c)
    requires l in Cur(s, a.c).owed && Waking(Cur(s, a.c).pc, l)
    requires a.Timer? ==> Holds(Cur(s, a.c).pc) == {}
    ensures |Do(s, a).procs| == |s.procs|
    ensures var p := Do(s, a).procs[s.cpus[a.c].proc.value]; l in p.owed ==> Waking(p.pc, l)
  {
    hide RunProc, Waking, Follows;
    if a.Run? { RunWaking(s, a.c, l); } else { CallWaking(s, a, l); }
  }

  /** acquiresleep sets lk->locked when it is clear; releasesleep clears it for its holder, and owes
      the wakeup. */
  lemma ChangeStep(s: State, a: Action, l: nat)
    requires LockInv(s, l) && Enabled(s, a) && Follows(s, a, l) && a.Change? && l < |s.guard| && s.guard[l] == Spin(l)
    ensures LockInv(Do(s, a), l) && Do(s, a).guard == s.guard
  {
    var s', p := Do(s, a), s.cpus[a.c].proc.value;
    assert forall q :: 0 <= q < |s.procs| && q != p ==> s'.procs[q] == s.procs[q];
    if a.ch == l {
      assert a.v ==> l in s.procs[p].held;
      assert !a.v ==> l in s'.procs[p].held;
    } else {
      assert l in s'.procs[p].held <==> l in s.procs[p].held;
      assert forall q :: 0 <= q < |s.procs| ==> (l in s'.procs[q].held <==> l in s.procs[q].held);
    }
    assert forall q :: 0 <= q < |s.procs| && l in s'.procs[q].owed ==> Waking(s'.procs[q].pc, l);
    assert HeldOnce(s', l);
  }

  lemma {:induction false} RunLockInv(s0: State, acts: seq<Action>, l: nat)
    requires Init(s0) && IsSleepLock(s0, l) && SleepLockRun(s0, acts, l)
    ensures var s := Exec(s0, acts); Inv(s) && LockInv(s, l) && s.guard == s0.guard
    decreases |acts|
  {
    hide Inv, Do, Enabled, Follows, LockInv;
    RunInv(s0, acts);
    if acts == [] {
      StartLockInv(s0, l);
    } else {
      var s, a := Exec(s0, acts[..|acts| - 1]), acts[|acts| - 1];
      RunLockInv(s0, acts[..|acts| - 1], l);
      LockStep(s, a, l);
    }
  }

  lemma StartLockInv(s: State, l: nat)
    requires Init(s) && IsSleepLock(s, l)
    ensures LockInv(s, l)
  {
  }

  lemma TimerHoldsNothing(s: State, c: nat)
    requires Inv(s) && Enabled(s, Timer(c))
    ensures Holds(Cur(s, c).pc) == {}
  {
    assert CpuOk(s, c);
  }

  lemma LockStep(s: State, a: Action, l: nat)
    requires Inv(s) && LockInv(s, l) && Enabled(s, a) && Follows(s, a, l) && l < |s.guard| && s.guard[l] == Spin(l)
    ensures LockInv(Do(s, a), l) && Do(s, a).guard == s.guard
  {
    hide Inv, Do, Enabled, Follows, Waking;
    if a.Change? {
      ChangeStep(s, a, l);
    } else {
      if a.Timer? { TimerHoldsNothing(s, a.c); }
      Books(s, a);
      forall p | 0 <= p < |Do(s, a).procs| && l in Do(s, a).procs[p].owed ensures Waking(Do(s, a).procs[p].pc, l) {
        OwedStep(s, a, l, p);
      }
    }
  }

  // ---- What sleep locks promise ----

  /** When a sleep lock is free and its spin lock is not held, nobody sleeps on it: an instance of
      the general theorem, since whoever owes its wakeup holds the spin lock. */
  lemma FreeLockHasNoSleepers(s0: State, acts: seq<Action>, l: nat, p: nat)
    requires Init(s0) && IsSleepLock(s0, l) && SleepLockRun(s0, acts, l)
    requires var s := Exec(s0, acts); l in s.cond && Spin(l) !in s.locks && p < |s.procs|
    ensures var q := Exec(s0, acts).procs[p]; !(q.state == SLEEPING && q.chan == Some(l))
  {
    hide Inv, ValidRun, Exec, Init;
    var s := Exec(s0, acts);
    RunLockInv(s0, acts, l);
    forall q | 0 <= q < |s.procs| ensures l !in s.procs[q].owed {
      if l in s.procs[q].owed { OwerHoldsLock(s, l, q); }
    }
    NoLostWakeup(s0, acts, l, p);
  }

  lemma OwerHoldsLock(s: State, l: nat, q: nat)
    requires Inv(s) && LockInv(s, l) && q < |s.procs| && l in s.procs[q].owed
    ensures s.procs[q].cpu.Some? && HeldBy(s, Spin(l), s.procs[q].cpu.value)
  {
    assert Placed(s, q);
    var c := s.procs[q].cpu.value;
    assert CpuOk(s, c);
    assert HeldBy(s, Spin(l), c) <==> Spin(l) in HoldsAt(s, c);
  }

  /** Whoever sleeps on a sleep lock has somebody to wake it: its holder, or the process that has just
      released it and still holds the spin lock. */
  lemma SleepersHaveAWaker(s0: State, acts: seq<Action>, l: nat, p: nat)
    requires Init(s0) && IsSleepLock(s0, l) && SleepLockRun(s0, acts, l)
    requires var s := Exec(s0, acts); p < |s.procs| && s.procs[p].state == SLEEPING && s.procs[p].chan == Some(l)
    ensures var s := Exec(s0, acts);
            exists q :: && 0 <= q < |s.procs|
                        && (l in s.procs[q].held || (s.procs[q].cpu.Some? && HeldBy(s, Spin(l), s.procs[q].cpu.value)))
  {
    hide Inv, ValidRun, Exec, Init;
    RunLockInv(s0, acts, l);
    var s := Exec(s0, acts);
    SleepersHaveAReason(s0, acts, p);
    if l in s.cond {
      var q :| 0 <= q < |s.procs| && l in s.procs[q].owed;
      OwerHoldsLock(s, l, q);
    }
  }

  /** Two processes never hold the same sleep lock, and a lock that is not free has a holder. */
  lemma MutualExclusion(s0: State, acts: seq<Action>, l: nat)
    requires Init(s0) && IsSleepLock(s0, l) && SleepLockRun(s0, acts, l)
    ensures HeldOnce(Exec(s0, acts), l)
  {
    hide Inv, ValidRun, Exec, Init;
    RunLockInv(s0, acts, l);
  }
}
