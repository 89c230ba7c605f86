/** What sleep, kill and an interrupt leave behind when they return. */
module SleepReturns {
  import opened Common
  import opened Sleep
  import opened SleepSafety
  import opened SleepLocks

  /** In sleep(chan, lk) from its first step to acquire(lk), perhaps interrupted there. */
  predicate InSleep(pc: PC, k: Lock) {
    if Away(pc) then InSleep(pc.b, k)
    else
      && (pc.SlpLock? || pc.SlpUnlock? || pc.SlpMark? || pc.SlpSched? || pc.SlpBack? || pc.SlpDone? || pc.Acq?)
      && pc.k == k
  }

  /** In kill before the victim is marked, perhaps interrupted there. */
  predicate InKill(pc: PC, q: nat) {
    pc == KillLock(q) || pc == KillMark(q) || (Away(pc) && InKill(pc.b, q))
  }

  predicate Away(pc: PC) {
    pc.YldLock? || pc.YldMark? || pc.YldSched? || pc.YldBack? || pc.Iret?
  }

  predicate InterruptedAt(pc: PC, b: PC) {
    Away(pc) && (pc.b == b || InterruptedAt(pc.b, b))
  }

  /** Where a process at pc may be next, at the points that this module is about. */
  predicate Moves(pc: PC, pc': PC) {
    || pc' == pc
    || pc' == YldLock(pc)
    || match pc
       case Acq(k) => pc' == Crit(k)
       case SlpLock(k, ch) => pc' == SlpUnlock(k, ch)
       case SlpUnlock(k, ch) => pc' == SlpMark(k, ch)
       case SlpMark(k, ch) => pc' == SlpSched(k, ch)
       case SlpSched(k, _) => pc' == SlpBack(k)
       case SlpBack(k) => pc' == SlpDone(k)
       case SlpDone(k) => pc' == Acq(k) || pc' == Crit(k)
       case YldLock(b) => pc' == YldMark(b)
       case YldMark(b) => pc' == YldSched(b)
       case YldSched(b) => pc' == YldBack(b)
       case YldBack(b) => pc' == Iret(b)
       case Iret(b) => pc' == b
       case KillLock(q) => pc' == KillMark(q)
       case KillMark(_) => pc' == KillDone
       case _ => true
  }

  /** wakeup1 changes neither channels nor points of code. */
  lemma ScanKeeps(s: State, c: nat, ch: nat, pc: PC)
    requires HasProc(s, c)
    ensures |Scan(s, c, ch, pc).procs| == |s.procs|
    ensures Scan(s, c, ch, pc).procs[s.cpus[c].proc.value].pc == pc
    ensures forall q :: 0 <= q < |s.procs| ==> Scan(s, c, ch, pc).procs[q].chan == s.procs[q].chan
  {
  }

  lemma RunMoves(s: State, c: nat)
    requires Enabled(s, Run(c))
    ensures var p := s.cpus[c].proc.value;
            p < |RunProc(s, c).procs| && Moves(Cur(s, c).pc, RunProc(s, c).procs[p].pc)
  {
    hide Scan;
    if Cur(s, c).pc.WakScan? { ScanKeeps(s, c, Cur(s, c).pc.ch, WakPut(Cur(s, c).pc.o)); }
  }

  lemma CallMoves(s: State, a: Action)
    requires Enabled(s, a) && !a.Run? && HasProc(s, a.c)
    ensures var p := s.cpus[a.c].proc.value;
            p < |Do(s, a).procs| && Moves(Cur(s, a.c).pc, Do(s, a).procs[p].pc)
  {
    hide RunProc, Scan;
    if a.Wake? { ScanKeeps(s, a.c, a.ch, Crit(Table)); }
  }

  lemma PcMoves(s: State, a: Action, p: nat)
    requires Enabled(s, a) && p < |s.procs|
    ensures p < |Do(s, a).procs| && Moves(s.procs[p].pc, Do(s, a).procs[p].pc)
  {
    hide RunProc, Scan;
    if OnCpu(s, a.c, p) {
      if a.Run? { RunMoves(s, a.c); } else { CallMoves(s, a); }
    } else if !a.Change? {
      Books(s, a);
    }
  }

  /** p runs between acquire(lk) and release(lk), and has lk. */
  predicate Has(s: State, p: nat, k: Lock)
    requires p < |s.procs|
  {
    var q := s.procs[p];
    q.pc == Crit(k) && q.state == RUNNING && q.cpu.Some? && HeldBy(s, k, q.cpu.value)
  }

  lemma CritHas(s: State, p: nat, k: Lock)
    requires Inv(s) && p < |s.procs| && s.procs[p].pc == Crit(k)
    ensures Has(s, p, k)
  {
    assert Placed(s, p);
    var c := s.procs[p].cpu.value;
    assert CpuOk(s, c) && k in HoldsAt(s, c);
  }

  /** p->chan is set in sleep only. */
  ghost predicate ChanOk(s: State) {
    forall p :: 0 <= p < |s.procs| && s.procs[p].chan != None ==> s.procs[p].pc.SlpSched? || s.procs[p].pc.SlpBack?
  }

  lemma ChanStep(s: State, a: Action)
    requires Inv(s) && ChanOk(s) && Enabled(s, a)
    ensures ChanOk(Do(s, a))
  {
    hide Inv, Do, Enabled;
    forall p | 0 <= p < |Do(s, a).procs| && Do(s, a).procs[p].chan != None
      ensures Do(s, a).procs[p].pc.SlpSched? || Do(s, a).procs[p].pc.SlpBack?
    {
      SameSize(s, a);
      ChanOf(s, a, p);
    }
  }

  lemma SameSize(s: State, a: Action)
    requires Enabled(s, a)
    ensures |Do(s, a).procs| == |s.procs|
  {
    if !a.Change? { hide Do; Books(s, a); }
  }

  lemma ChanOf(s: State, a: Action, p: nat)
    requires Inv(s) && ChanOk(s) && Enabled(s, a) && p < |s.procs|
    ensures p < |Do(s, a).procs| && (Do(s, a).procs[p].chan != None ==>
                                       Do(s, a).procs[p].pc.SlpSched? || Do(s, a).procs[p].pc.SlpBack?)
  {
    hide Inv, RunProc, Scan;
    if OnCpu(s, a.c, p) {
      AtCpu(s, a.c);
      if a.Run? { RunChan(s, a.c); } else { CallChan(s, a); }
    } else {
      OtherChan(s, a, p);
      if !a.Change? { Books(s, a); }
    }
  }

  lemma RunChan(s: State, c: nat)
    requires Enabled(s, Run(c)) && (Cur(s, c).chan != None ==> Cur(s, c).pc.SlpSched? || Cur(s, c).pc.SlpBack?)
    ensures var p := s.cpus[c].proc.value;
            && p < |RunProc(s, c).procs|
            && var q := RunProc(s, c).procs[p];
               q.chan != None ==> q.pc.SlpSched? || q.pc.SlpBack?
  {
    hide Scan;
    match Cur(s, c).pc
    case WakScan(o, ch) => ScanKeeps(s, c, ch, WakPut(o));
    case _ =>
  }

  lemma CallChan(s: State, a: Action)
    requires Enabled(s, a) && !a.Run? && HasProc(s, a.c)
    requires Cur(s, a.c).chan != None ==> Cur(s, a.c).pc.SlpSched? || Cur(s, a.c).pc.SlpBack?
    requires a.Timer? ==> Holds(Cur(s, a.c).pc) == {}
    ensures var p := s.cpus[a.c].proc.value;
            && p < |Do(s, a).procs|
            && var q := Do(s, a).procs[p];
               q.chan != None ==> q.pc.SlpSched? || q.pc.SlpBack?
  {
    hide RunProc, Scan;
    if a.Wake? { ScanKeeps(s, a.c, a.ch, Crit(Table)); }
  }

  lemma OtherChan(s: State, a: Action, p: nat)
    requires Enabled(s, a) && p < |s.procs| && !OnCpu(s, a.c, p)
    ensures p < |Do(s, a).procs| && Do(s, a).procs[p].chan == s.procs[p].chan
    ensures a.Change? ==> Do(s, a).procs[p].pc == s.procs[p].pc
  {
    hide RunProc, Scan;
    if a.Run? { RunOtherChan(s, a.c, p); }
    if a.Wake? { ScanKeeps(s, a.c, a.ch, Crit(Table)); }
  }

  lemma RunOtherChan(s: State, c: nat, p: nat)
    requires Enabled(s, Run(c)) && p < |s.procs| && !OnCpu(s, c, p)
    ensures p < |RunProc(s, c).procs| && RunProc(s, c).procs[p].chan == s.procs[p].chan
  {
    hide Scan;
    if Cur(s, c).pc.WakScan? { ScanKeeps(s, c, Cur(s, c).pc.ch, WakPut(Cur(s, c).pc.o)); }
  }

  lemma {:induction false} ChanOnlyInSleep(s0: State, acts: seq<Action>)
    requires Init(s0) && ValidRun(s0, acts)
    ensures ChanOk(Exec(s0, acts))
    decreases |acts|
  {
    hide Inv, Do, Enabled;
    if acts != [] {
      var s := Exec(s0, acts[..|acts| - 1]);
      RunInv(s0, acts[..|acts| - 1]);
      ChanOnlyInSleep(s0, acts[..|acts| - 1]);
      ChanStep(s, acts[|acts| - 1]);
    }
  }

  /** A process leaves sleep only with the lock it came with, and with its channel cleared. */
  lemma SleepReturnsWithLock(s0: State, acts: seq<Action>, a: Action, p: nat, k: Lock)
    requires Init(s0) && ValidRun(s0, acts) && Enabled(Exec(s0, acts), a)
    requires p < |Exec(s0, acts).procs| && InSleep(Exec(s0, acts).procs[p].pc, k)
    ensures var s := Do(Exec(s0, acts), a);
            && p < |s.procs|
            && (InSleep(s.procs[p].pc, k) || (Has(s, p, k) && s.procs[p].chan == None))
  {
    hide Inv, Do, Enabled, InSleep, Has, ChanOk;
    var s := Exec(s0, acts);
    RunInv(s0, acts);
    StepInv(s, a);
    ChanOnlyInSleep(s0, acts);
    ChanStep(s, a);
    SleepStep(s, a, p, k);
    if !InSleep(Do(s, a).procs[p].pc, k) {
      CritHas(Do(s, a), p, k);
      ChanAt(Do(s, a), p);
    }
  }

  lemma ChanAt(s: State, p: nat)
    requires ChanOk(s) && p < |s.procs| && s.procs[p].pc.Crit?
    ensures s.procs[p].chan == None
  {
  }

  lemma SleepStep(s: State, a: Action, p: nat, k: Lock)
    requires Enabled(s, a) && p < |s.procs| && InSleep(s.procs[p].pc, k)
    ensures p < |Do(s, a).procs|
    ensures InSleep(Do(s, a).procs[p].pc, k) || Do(s, a).procs[p].pc == Crit(k)
  {
    hide Do, Enabled;
    PcMoves(s, a, p);
  }

  /** kill goes on to the end only when its victim is not asleep. */
  lemma KillWakes(s0: State, acts: seq<Action>, a: Action, p: nat, q: nat)
    requires Init(s0) && ValidRun(s0, acts) && Enabled(Exec(s0, acts), a)
    requires p < |Exec(s0, acts).procs| && InKill(Exec(s0, acts).procs[p].pc, q)
    ensures var s := Do(Exec(s0, acts), a);
            && p < |s.procs|
            && (InKill(s.procs[p].pc, q) ||
                (s.procs[p].pc == KillDone && q < |s.procs| && s.procs[q].state != SLEEPING))
  {
    hide Do, Enabled, Init, ValidRun, Exec;
    var s := Exec(s0, acts);
    PcMoves(s, a, p);
    if s.procs[p].pc == KillMark(q) && Do(s, a).procs[p].pc == KillDone { Marked(s, a, p); }
  }

  lemma Marked(s: State, a: Action, p: nat)
    requires Enabled(s, a) && p < |s.procs| && s.procs[p].pc.KillMark?
    requires p < |Do(s, a).procs| && Do(s, a).procs[p].pc == KillDone
    ensures s.procs[p].pc.q < |Do(s, a).procs| && Do(s, a).procs[s.procs[p].pc.q].state != SLEEPING
  {
    if !OnCpu(s, a.c, p) && !a.Change? { hide Do; Books(s, a); }
  }

  /** A process that is interrupted goes on where it was. */
  lemma InterruptReturns(s0: State, acts: seq<Action>, a: Action, p: nat, b: PC)
    requires Init(s0) && ValidRun(s0, acts) && Enabled(Exec(s0, acts), a)
    requires p < |Exec(s0, acts).procs| && InterruptedAt(Exec(s0, acts).procs[p].pc, b)
    ensures var s := Do(Exec(s0, acts), a);
            p < |s.procs| && (InterruptedAt(s.procs[p].pc, b) || s.procs[p].pc == b)
  {
    hide Do, Enabled, Init, ValidRun, Exec;
    PcMoves(Exec(s0, acts), a, p);
  }
}
