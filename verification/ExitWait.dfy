/** The process table of proc.c: fork, exit, wait, kill, sleep and wakeup as they change it.  An
    action is one critical section under ptable.lock, or one of fork's unlocked steps. */
module ExitWait {
  import opened Common

  const NPROC: nat := 64

  datatype Procstate = UNUSED | EMBRYO | SLEEPING | RUNNABLE | RUNNING | ZOMBIE

  /** wait sleeps on the process itself; every other sleep uses some other address. */
  datatype Chan = Self(p: nat) | Other(addr: nat)

  datatype Proc = Proc(state: Procstate, pid: int, parent: Option<nat>, chan: Option<Chan>, killed: bool)

  predicate Live(st: Procstate) {
    st == SLEEPING || st == RUNNABLE || st == RUNNING
  }

  /** The process tree: init is alive and parentless, everyone else has a parent that is alive. */
  ghost predicate Tree(procs: seq<Proc>, init: nat, forks: map<nat, nat>) {
    && |procs| == NPROC && init < NPROC && Live(procs[init].state) && procs[init].parent == None
    && (forall p :: 0 <= p < NPROC ==> InTree(procs, init, forks, p))
    && (forall p :: p in forks ==> p < NPROC && procs[p].state == EMBRYO)
  }

  ghost predicate InTree(procs: seq<Proc>, init: nat, forks: map<nat, nat>, p: nat)
    requires |procs| == NPROC && p < NPROC
  {
    var q := procs[p];
    match q.state
    case UNUSED => q.parent == None
    case EMBRYO =>
      && p in forks && forks[p] < NPROC && Live(procs[forks[p]].state)
      && (q.parent == None || q.parent == Some(forks[p]))
    case _ => p != init ==> q.parent.Some? && p != q.parent.value < NPROC && Live(procs[q.parent.value].state)
  }

  ghost predicate Pids(procs: seq<Proc>, nextpid: int) {
    && 1 <= nextpid && |procs| == NPROC
    && (forall p :: 0 <= p < NPROC ==> 0 <= procs[p].pid < nextpid)
    && (forall p :: 0 <= p < NPROC && procs[p].state != UNUSED ==> procs[p].pid != 0)
    && (forall p, q :: 0 <= p < q < NPROC && procs[p].pid != 0 ==> procs[p].pid != procs[q].pid)
  }

  /** exited: pids of processes that have called exit.  reaped: pids that wait returned, in order. */
  ghost predicate Ledger(procs: seq<Proc>, nextpid: int, exited: set<int>, reaped: seq<int>) {
    && |procs| == NPROC
    && (forall p :: 0 <= p < NPROC && procs[p].state == ZOMBIE ==> procs[p].pid in exited && procs[p].pid !in reaped)
    && (forall x :: x in exited ==> 0 < x < nextpid)
    && (forall x :: x in exited ==> x in reaped || IsZombie(procs, x))
    && (forall i :: 0 <= i < |reaped| ==> reaped[i] in exited)
    && (forall i, j :: 0 <= i < j < |reaped| ==> reaped[i] != reaped[j])
    && (forall p :: 0 <= p < NPROC && Live(procs[p].state) ==> procs[p].pid !in exited)
    && (forall p :: 0 <= p < NPROC && procs[p].state == EMBRYO ==> procs[p].pid !in exited)
  }

  ghost predicate IsZombie(procs: seq<Proc>, x: int)
    requires |procs| == NPROC
  {
    exists p :: 0 <= p < NPROC && procs[p].state == ZOMBIE && procs[p].pid == x
  }

  /** A process asleep in wait has no zombie child. */
  ghost predicate NoMissedExit(procs: seq<Proc>) {
    && |procs| == NPROC
    && forall p, c :: 0 <= p < NPROC && 0 <= c < NPROC ==>
         !(&& procs[p].state == SLEEPING && procs[p].chan == Some(Self(p))
           && procs[c].parent == Some(p) && procs[c].state == ZOMBIE)
  }

  function Wakeup1(procs: seq<Proc>, chan: Chan): (r: seq<Proc>)
    ensures |r| == |procs|
    ensures forall p :: 0 <= p < |procs| ==>
              r[p] == if procs[p].state == SLEEPING && procs[p].chan == Some(chan)
                      then procs[p].(state := RUNNABLE) else procs[p]
  {
    seq(|procs|, i requires 0 <= i < |procs| =>
      if procs[i].state == SLEEPING && procs[i].chan == Some(chan) then procs[i].(state := RUNNABLE) else procs[i])
  }

  /** Child slots now belong to init, and init is woken if one of them is a zombie. */
  function Orphan(procs: seq<Proc>, cur: nat, init: nat): (r: seq<Proc>)
    ensures |r| == |procs|
  {
    var r := seq(|procs|, i requires 0 <= i < |procs| =>
      if procs[i].parent == Some(cur) then procs[i].(parent := Some(init)) else procs[i]);
    if ZombieChild(procs, cur, |procs|) then Wakeup1(r, Self(init)) else r
  }

  /** One of the first n slots is a zombie child of cur. */
  predicate ZombieChild(procs: seq<Proc>, cur: nat, n: nat)
    requires n <= |procs|
  {
    exists c :: 0 <= c < n && procs[c].parent == Some(cur) && procs[c].state == ZOMBIE
  }

  // ---- The table as a value, and everything that can happen to it ----

  /** aborted: pids of forks that failed after allocproc gave them a slot. */
  datatype Table = Table(procs: seq<Proc>, nextpid: int, init: nat, forks: map<nat, nat>, exited: set<int>,
                         reaped: seq<int>, aborted: set<int>)

  ghost predicate Good(t: Table) {
    && Tree(t.procs, t.init, t.forks) && Pids(t.procs, t.nextpid)
    && Ledger(t.procs, t.nextpid, t.exited, t.reaped) && NoMissedExit(t.procs)
  }

  datatype Action =
    | Alloc(p: nat, cur: nat)     // allocproc inside fork of cur takes slot p
    | Abort(p: nat)               // fork fails: kalloc or copyuvm found no memory
    | SetParent(p: nat)           // np->parent = curproc
    | Publish(p: nat)             // np->state = RUNNABLE
    | Exit(cur: nat)
    | Reap(cur: nat, c: nat)      // wait finds zombie child c
    | WaitSleep(cur: nat)         // wait finds children but no zombie
    | SleepOn(cur: nat, addr: nat)
    | WakeAddr(addr: nat)
    | Kill(q: nat)                // kill finds its pid in slot q
    | Fault(p: nat)               // trap marks a process that faulted in user space
    | Schedule(p: nat)
    | Resume(p: nat)              // p->chan = 0 after sched
    | Yield(p: nat)

  predicate InFork(t: Table, cur: nat) {
    exists p :: p in t.forks && t.forks[p] == cur
  }

  predicate Enabled(t: Table, a: Action)
    requires |t.procs| == NPROC
  {
    match a
    case Alloc(p, cur) => p < NPROC && cur < NPROC && t.procs[p].state == UNUSED && t.procs[cur].state == RUNNING
    case Abort(p) => p in t.forks && p < NPROC && t.procs[p].parent == None
    case SetParent(p) => p in t.forks && p < NPROC
    case Publish(p) => p in t.forks && p < NPROC && t.procs[p].parent.Some?
    case Exit(cur) =>
      cur < NPROC && cur != t.init && t.procs[cur].state == RUNNING && !InFork(t, cur) && t.procs[cur].parent.Some?
    case Reap(cur, c) =>
      && cur < NPROC && c < NPROC && t.procs[cur].state == RUNNING
      && t.procs[c].parent == Some(cur) && t.procs[c].state == ZOMBIE
    case WaitSleep(cur) =>
      cur < NPROC && t.procs[cur].state == RUNNING && !ZombieChild(t.procs, cur, NPROC)
    case SleepOn(cur, addr) => cur < NPROC && t.procs[cur].state == RUNNING
    case WakeAddr(addr) => true
    case Kill(q) => q < NPROC
    case Fault(p) => p < NPROC && t.procs[p].state == RUNNING
    case Schedule(p) => p < NPROC && t.procs[p].state == RUNNABLE
    case Resume(p) => p < NPROC && t.procs[p].state == RUNNING
    case Yield(p) => p < NPROC && t.procs[p].state == RUNNING
  }

  function Put(t: Table, p: nat, q: Proc): Table
    requires p < |t.procs|
  {
    t.(procs := t.procs[p := q])
  }

  function KilledProc(q: Proc): Proc {
    q.(killed := true, state := if q.state == SLEEPING then RUNNABLE else q.state)
  }

  function ExitProcs(procs: seq<Proc>, cur: nat, init: nat): (r: seq<Proc>)
    requires cur < |procs| && procs[cur].parent.Some?
    ensures |r| == |procs|
  {
    var procs := Orphan(Wakeup1(procs, Self(procs[cur].parent.value)), cur, init);
    procs[cur := procs[cur].(state := ZOMBIE)]
  }

  function Do(t: Table, a: Action): Table
    requires |t.procs| == NPROC && Enabled(t, a)
  {
    match a
    case Alloc(p, cur) =>
      Put(t, p, t.procs[p].(state := EMBRYO, pid := t.nextpid)).(nextpid := t.nextpid + 1, forks := t.forks[p := cur])
    case Abort(p) =>
      Put(t, p, t.procs[p].(state := UNUSED)).(forks := t.forks - {p}, aborted := t.aborted + {t.procs[p].pid})
    case SetParent(p) => Put(t, p, t.procs[p].(parent := Some(t.forks[p])))
    case Publish(p) => Put(t, p, t.procs[p].(state := RUNNABLE)).(forks := t.forks - {p})
    case Exit(cur) => t.(procs := ExitProcs(t.procs, cur, t.init), exited := t.exited + {t.procs[cur].pid})
    case Reap(cur, c) =>
      Put(t, c, Proc(UNUSED, 0, None, t.procs[c].chan, false)).(reaped := t.reaped + [t.procs[c].pid])
    case WaitSleep(cur) => Put(t, cur, t.procs[cur].(chan := Some(Self(cur)), state := SLEEPING))
    case SleepOn(cur, addr) => Put(t, cur, t.procs[cur].(chan := Some(Other(addr)), state := SLEEPING))
    case WakeAddr(addr) => t.(procs := Wakeup1(t.procs, Other(addr)))
    case Kill(q) => Put(t, q, KilledProc(t.procs[q]))
    case Fault(p) => Put(t, p, t.procs[p].(killed := true))
    case Schedule(p) => Put(t, p, t.procs[p].(state := RUNNING))
    case Resume(p) => Put(t, p, t.procs[p].(chan := None))
    case Yield(p) => Put(t, p, t.procs[p].(state := RUNNABLE))
  }

  // ---- Every action keeps the table good ----

  /** A change that keeps parents, pids, and who is live, zombie, unused or embryo. */
  ghost predicate SameLife(a: seq<Proc>, b: seq<Proc>) {
    && |a| == NPROC && |b| == NPROC
    && forall p :: 0 <= p < NPROC ==>
         && b[p].parent == a[p].parent && b[p].pid == a[p].pid
         && (b[p].state == a[p].state || (Live(a[p].state) && Live(b[p].state)))
  }

  lemma SameLifeGood(t: Table, procs: seq<Proc>)
    requires Good(t) && SameLife(t.procs, procs) && NoMissedExit(procs)
    ensures Good(t.(procs := procs))
  {
    forall p | 0 <= p < NPROC ensures InTree(procs, t.init, t.forks, p) {
      assert InTree(t.procs, t.init, t.forks, p);
    }
    forall x | x in t.exited ensures x in t.reaped || IsZombie(procs, x) {
      if x !in t.reaped { ZombieStays(t.procs, procs, x, NPROC); }
    }
  }

  lemma ZombieStays(a: seq<Proc>, b: seq<Proc>, x: int, p: nat)
    requires |a| == NPROC && |b| == NPROC && IsZombie(a, x) && (p < NPROC ==> a[p].state != ZOMBIE)
    requires forall q :: 0 <= q < NPROC && q != p && a[q].state == ZOMBIE ==>
               b[q].state == ZOMBIE && b[q].pid == a[q].pid
    ensures IsZombie(b, x)
  {
    var q :| 0 <= q < NPROC && a[q].state == ZOMBIE && a[q].pid == x;
    assert b[q].state == ZOMBIE;
  }

  /** The slots other than p are untouched, and p is no zombie before. */
  lemma ZombiesKept(t: Table, procs: seq<Proc>, p: nat)
    requires Good(t) && p < NPROC && t.procs[p].state != ZOMBIE && |procs| == NPROC
    requires forall q :: 0 <= q < NPROC && q != p ==> procs[q] == t.procs[q]
    ensures forall x :: x in t.exited ==> x in t.reaped || IsZombie(procs, x)
  {
    hide Tree, Pids, NoMissedExit;
    forall x | x in t.exited ensures x in t.reaped || IsZombie(procs, x) {
      if x !in t.reaped { ZombieStays(t.procs, procs, x, p); }
    }
  }

  lemma AllocGood(t: Table, p: nat, cur: nat)
    requires Good(t) && Enabled(t, Alloc(p, cur))
    ensures Good(Do(t, Alloc(p, cur)))
  {
    hide IsZombie, Tree, Pids, Ledger, NoMissedExit;
    AllocTree(t, p, cur);
    AllocPids(t, p, cur);
    AllocLedger(t, p, cur);
  }

  lemma AllocPids(t: Table, p: nat, cur: nat)
    requires Good(t) && Enabled(t, Alloc(p, cur))
    ensures Pids(Do(t, Alloc(p, cur)).procs, Do(t, Alloc(p, cur)).nextpid)
    ensures NoMissedExit(Do(t, Alloc(p, cur)).procs)
  {
    hide Tree, Ledger;
  }

  lemma AllocLedger(t: Table, p: nat, cur: nat)
    requires Good(t) && Enabled(t, Alloc(p, cur))
    ensures var t' := Do(t, Alloc(p, cur)); Ledger(t'.procs, t'.nextpid, t'.exited, t'.reaped)
  {
    hide IsZombie, Tree, NoMissedExit;
    var t' := Do(t, Alloc(p, cur));
    ZombiesKept(t, t'.procs, p);
  }

  lemma AllocTree(t: Table, p: nat, cur: nat)
    requires Good(t) && Enabled(t, Alloc(p, cur))
    ensures Tree(Do(t, Alloc(p, cur)).procs, t.init, Do(t, Alloc(p, cur)).forks)
  {
    hide Pids, Ledger, NoMissedExit;
    var t' := Do(t, Alloc(p, cur));
    assert InTree(t.procs, t.init, t.forks, p);
    forall q | 0 <= q < NPROC ensures InTree(t'.procs, t.init, t'.forks, q) {
      assert InTree(t.procs, t.init, t.forks, q);
    }
  }

  lemma ForkStepTree(t: Table, a: Action)
    requires Good(t) && Enabled(t, a) && (a.Abort? || a.SetParent? || a.Publish?)
    ensures Tree(Do(t, a).procs, t.init, Do(t, a).forks)
    ensures t.procs[a.p].state == EMBRYO
  {
    hide Ledger, Pids, NoMissedExit;
    var t', p := Do(t, a), a.p;
    assert InTree(t.procs, t.init, t.forks, p);
    forall q | 0 <= q < NPROC ensures InTree(t'.procs, t.init, t'.forks, q) {
      assert InTree(t.procs, t.init, t.forks, q);
    }
  }

  lemma ForkStepGood(t: Table, a: Action)
    requires Good(t) && Enabled(t, a) && (a.Abort? || a.SetParent? || a.Publish?)
    ensures Good(Do(t, a))
  {
    hide Tree, IsZombie;
    GoodSize(t);
    ForkStepTree(t, a);
    ZombiesKept(t, Do(t, a).procs, a.p);
    ForkStepNoMiss(t, a);
  }

  lemma GoodSize(t: Table)
    requires Good(t)
    ensures |t.procs| == NPROC && t.init < NPROC
  {
  }

  lemma ForkStepNoMiss(t: Table, a: Action)
    requires Good(t) && Enabled(t, a) && (a.Abort? || a.SetParent? || a.Publish?)
    ensures NoMissedExit(Do(t, a).procs)
  {
    hide Ledger, Pids, InTree;
    assert t.procs[a.p].state == EMBRYO;
  }

  lemma ReapTree(t: Table, cur: nat, c: nat)
    requires Good(t) && Enabled(t, Reap(cur, c))
    ensures Tree(Do(t, Reap(cur, c)).procs, t.init, t.forks)
  {
    hide Ledger, Pids, NoMissedExit;
    var t' := Do(t, Reap(cur, c));
    assert InTree(t.procs, t.init, t.forks, c);
    forall q | 0 <= q < NPROC ensures InTree(t'.procs, t.init, t'.forks, q) {
      assert InTree(t.procs, t.init, t.forks, q);
    }
  }

  lemma ReapGood(t: Table, cur: nat, c: nat)
    requires Good(t) && Enabled(t, Reap(cur, c))
    ensures Good(Do(t, Reap(cur, c)))
  {
    hide Tree;
    GoodSize(t);
    ReapTree(t, cur, c);
    var t' := Do(t, Reap(cur, c));
    forall x | x in t.exited ensures x in t'.reaped || IsZombie(t'.procs, x) {
      if x in t.reaped {
        assert x in t'.reaped;
      } else {
        var q :| 0 <= q < NPROC && t.procs[q].state == ZOMBIE && t.procs[q].pid == x;
        if q == c { assert t'.reaped[|t.reaped|] == x; } else { assert t'.procs[q].state == ZOMBIE; }
      }
    }
  }

  /** What exit does to each slot. */
  /** Slot p sleeps in wait as the parent of cur, or as init, which gets a zombie from cur. */
  predicate ExitWakes(procs: seq<Proc>, cur: nat, init: nat, p: nat)
    requires |procs| == NPROC && cur < NPROC && procs[cur].parent.Some? && p < NPROC
  {
    && procs[p].state == SLEEPING
    && (|| procs[p].chan == Some(Self(procs[cur].parent.value))
        || (procs[p].chan == Some(Self(init)) && ZombieChild(procs, cur, NPROC)))
  }

  lemma ExitEffect(procs: seq<Proc>, cur: nat, init: nat)
    requires |procs| == NPROC && cur < NPROC && procs[cur].parent.Some?
    ensures var r := ExitProcs(procs, cur, init);
            && r[cur].state == ZOMBIE
            && (forall p :: 0 <= p < NPROC ==>
                  && r[p].pid == procs[p].pid && r[p].chan == procs[p].chan && r[p].killed == procs[p].killed
                  && r[p].parent == (if procs[p].parent == Some(cur) then Some(init) else procs[p].parent)
                  && (p != cur ==> r[p].state == if ExitWakes(procs, cur, init, p) then RUNNABLE else procs[p].state))
  {
    var w := Wakeup1(procs, Self(procs[cur].parent.value));
    assert ZombieChild(procs, cur, NPROC) <==> ZombieChild(w, cur, NPROC) by {
      forall c | 0 <= c < NPROC
        ensures (w[c].state == ZOMBIE <==> procs[c].state == ZOMBIE) && w[c].parent == procs[c].parent
      {
      }
    }
  }

  lemma ExitTree(t: Table, cur: nat)
    requires Good(t) && Enabled(t, Exit(cur))
    ensures Tree(ExitProcs(t.procs, cur, t.init), t.init, t.forks)
  {
    hide ExitProcs, Ledger, Pids, NoMissedExit;
    ExitEffect(t.procs, cur, t.init);
    assert InTree(t.procs, t.init, t.forks, cur);
    var procs := ExitProcs(t.procs, cur, t.init);
    forall q | 0 <= q < NPROC ensures InTree(procs, t.init, t.forks, q) {
      assert InTree(t.procs, t.init, t.forks, q);
    }
  }

  lemma ExitGood(t: Table, cur: nat)
    requires Good(t) && Enabled(t, Exit(cur))
    ensures Good(Do(t, Exit(cur)))
  {
    hide ExitProcs, Tree, NoMissedExit;
    GoodSize(t);
    var t' := Do(t, Exit(cur));
    ExitTree(t, cur);
    ExitMissesNobody(t, cur);
    ExitEffect(t.procs, cur, t.init);
    forall x | x in t'.exited ensures x in t.reaped || IsZombie(t'.procs, x) {
      if x == t.procs[cur].pid { assert t'.procs[cur].state == ZOMBIE; }
      else if x !in t.reaped { ZombieStays(t.procs, t'.procs, x, cur); }
    }
  }

  lemma ExitMissesNobody(t: Table, cur: nat)
    requires Good(t) && Enabled(t, Exit(cur))
    ensures NoMissedExit(ExitProcs(t.procs, cur, t.init))
  {
    hide ExitProcs;
    ExitEffect(t.procs, cur, t.init);
    var r := ExitProcs(t.procs, cur, t.init);
    assert InTree(t.procs, t.init, t.forks, cur);
    forall p, c | 0 <= p < NPROC && 0 <= c < NPROC && r[p].state == SLEEPING && r[p].chan == Some(Self(p))
      ensures !(r[c].parent == Some(p) && r[c].state == ZOMBIE)
    {
      assert p != cur;
      if c != cur && t.procs[c].parent == Some(cur) && t.procs[c].state == ZOMBIE {
        assert ZombieChild(t.procs, cur, NPROC);
      }
    }
  }

  lemma StateStepGood(t: Table, a: Action)
    requires Good(t) && Enabled(t, a)
    requires a.WaitSleep? || a.SleepOn? || a.WakeAddr? || a.Kill? || a.Fault? || a.Schedule? || a.Resume? || a.Yield?
    ensures Good(Do(t, a))
  {
    hide Tree, Pids, Ledger;
    GoodSize(t);
    SameLifeGood(t, Do(t, a).procs);
  }

  lemma StepGood(t: Table, a: Action)
    requires Good(t) && Enabled(t, a)
    ensures Good(Do(t, a))
  {
    hide Good, Do, Enabled;
    match a
    case Alloc(p, cur) => AllocGood(t, p, cur);
    case Abort(p) => ForkStepGood(t, a);
    case SetParent(p) => ForkStepGood(t, a);
    case Publish(p) => ForkStepGood(t, a);
    case Exit(cur) => ExitGood(t, cur);
    case Reap(cur, c) => ReapGood(t, cur, c);
    case _ => StateStepGood(t, a);
  }

  // ---- Runs ----

  /** The table after userinit: slot 0 is the first process. */
  function Boot(): (t: Table)
    ensures Good(t)
  {
    Table(seq(NPROC, i => if i == 0 then Proc(RUNNABLE, 1, None, None, false) else Proc(UNUSED, 0, None, None, false)),
          2, 0, map[], {}, [], {})
  }

  ghost predicate ValidRun(acts: seq<Action>)
    decreases |acts|, 0
  {
    acts == [] ||
    (var m := |acts| - 1;
     ValidRun(acts[..m]) && |Exec(acts[..m]).procs| == NPROC && Enabled(Exec(acts[..m]), acts[m]))
  }

  ghost function Exec(acts: seq<Action>): Table
    requires ValidRun(acts)
    decreases |acts|, 1
  {
    if acts == [] then Boot() else Do(Exec(acts[..|acts| - 1]), acts[|acts| - 1])
  }

  lemma {:induction false} RunGood(acts: seq<Action>)
    requires ValidRun(acts)
    ensures Good(Exec(acts))
    decreases |acts|
  {
    hide Good, Do, Enabled;
    if acts != [] {
      RunGood(acts[..|acts| - 1]);
      StepGood(Exec(acts[..|acts| - 1]), acts[|acts| - 1]);
    }
  }

  /** In every reachable state a process other than init that has been published and not reaped has
      a parent, and that parent is alive: it can still call wait. */
  lemma EveryParentAlive(acts: seq<Action>, p: nat)
    requires ValidRun(acts) && p < |Exec(acts).procs|
    requires var t := Exec(acts); p != t.init && t.procs[p].state != UNUSED && t.procs[p].state != EMBRYO
    ensures var t := Exec(acts);
            var q := t.procs[p].parent;
            q.Some? && q.value < |t.procs| && q.value != p && Live(t.procs[q.value].state)
  {
    RunGood(acts);
    var t := Exec(acts);
    assert InTree(t.procs, t.init, t.forks, p);
  }

  /** What can happen to a process: it keeps its pid and its parent until wait returns it, except that
      init becomes the parent when the parent exits; only its own exit makes it a zombie, and only a kill
      or a fault of its own marks it. */
  lemma LifeStep(acts: seq<Action>, a: Action, p: nat)
    requires ValidRun(acts) && |Exec(acts).procs| == NPROC && Enabled(Exec(acts), a) && p < NPROC
    requires Live(Exec(acts).procs[p].state) || Exec(acts).procs[p].state == ZOMBIE
    ensures var t := Exec(acts);
            var q, q' := t.procs[p], Do(t, a).procs[p];
            || (a.Reap? && a.c == p && q.state == ZOMBIE && q.parent == Some(a.cur))
            || (&& q'.pid == q.pid
                && q'.parent == (if a.Exit? && q.parent == Some(a.cur) then Some(t.init) else q.parent)
                && (q'.state == ZOMBIE <==> q.state == ZOMBIE || a == Exit(p))
                && (q'.killed <==> q.killed || a == Kill(p) || a == Fault(p)))
  {
    hide ValidRun, Exec, ExitProcs;
    RunGood(acts);
    if a.Exit? { ExitEffect(Exec(acts).procs, a.cur, Exec(acts).init); }
  }

  /** fork's child is born to the process that forked, which is alive. */
  lemma BornToForker(acts: seq<Action>, p: nat)
    requires ValidRun(acts) && |Exec(acts).procs| == NPROC && Enabled(Exec(acts), Publish(p))
    ensures var t := Exec(acts);
            var q := Do(t, Publish(p)).procs[p];
            q.state == RUNNABLE && q.parent == Some(t.forks[p]) && t.forks[p] < NPROC && Live(t.procs[t.forks[p]].state)
  {
    hide ValidRun, Exec;
    RunGood(acts);
    assert InTree(Exec(acts).procs, Exec(acts).init, Exec(acts).forks, p);
  }

  lemma PidsDistinct(acts: seq<Action>, p: nat, q: nat)
    requires ValidRun(acts) && p < q < |Exec(acts).procs|
    requires Exec(acts).procs[p].state != UNUSED && Exec(acts).procs[q].state != UNUSED
    ensures Exec(acts).procs[p].pid != Exec(acts).procs[q].pid
  {
    RunGood(acts);
  }

  /** Each process that exits is a zombie until exactly one wait returns its pid. */
  lemma ReapedExactlyOnce(acts: seq<Action>)
    requires ValidRun(acts)
    ensures var t := Exec(acts);
            && |t.procs| == NPROC
            && (forall i, j :: 0 <= i < j < |t.reaped| ==> t.reaped[i] != t.reaped[j])
            && (forall x :: x in t.exited <==> x in t.reaped || IsZombie(t.procs, x))
            && (forall x :: !(x in t.reaped && IsZombie(t.procs, x)))
  {
    RunGood(acts);
    var t := Exec(acts);
    forall x | x in t.reaped || IsZombie(t.procs, x) ensures x in t.exited && !(x in t.reaped && IsZombie(t.procs, x)) {
      if x in t.reaped { var i :| 0 <= i < |t.reaped| && t.reaped[i] == x; }
    }
  }

  /** A process asleep in wait has no exited child left to report. */
  lemma WaitMissesNoExit(acts: seq<Action>, p: nat, c: nat)
    requires ValidRun(acts) && p < |Exec(acts).procs| && c < |Exec(acts).procs|
    requires Exec(acts).procs[p].state == SLEEPING && Exec(acts).procs[p].chan == Some(Self(p))
    requires Exec(acts).procs[c].parent == Some(p)
    ensures Exec(acts).procs[c].state != ZOMBIE
  {
    RunGood(acts);
  }

  // ---- kill compares pids only, so it can mark a slot that is not in use ----

  predicate FirstWithPid(procs: seq<Proc>, pid: int, q: nat) {
    q < |procs| && procs[q].pid == pid && forall p :: 0 <= p < q ==> procs[p].pid != pid
  }

  /** The pid left in a free slot is 0 or that of a fork that failed there; the others are of neither kind. */
  ghost predicate LeftOver(t: Table) {
    && (forall p :: 0 <= p < |t.procs| ==>
          (t.procs[p].state == UNUSED <==> t.procs[p].pid == 0 || t.procs[p].pid in t.aborted))
    && (forall x :: x in t.aborted ==> x < t.nextpid)
  }

  lemma LeftOverStep(t: Table, a: Action)
    requires Good(t) && LeftOver(t) && Enabled(t, a)
    ensures LeftOver(Do(t, a))
  {
    hide Ledger, NoMissedExit, ExitProcs, InTree;
    if a.Exit? { ExitEffect(t.procs, a.cur, t.init); }
  }

  lemma {:induction false} RunLeftOver(acts: seq<Action>)
    requires ValidRun(acts)
    ensures LeftOver(Exec(acts))
    decreases |acts|
  {
    hide Good, Do, Enabled;
    if acts != [] {
      RunGood(acts[..|acts| - 1]);
      RunLeftOver(acts[..|acts| - 1]);
      LeftOverStep(Exec(acts[..|acts| - 1]), acts[|acts| - 1]);
    } else {
      BootLeftOver();
    }
  }

  lemma BootLeftOver()
    ensures LeftOver(Boot())
  {
    hide Good;
  }

  /** The slot that kill finds is free exactly when the pid is 0 or that of a fork that failed. */
  lemma KillTarget(acts: seq<Action>, pid: int, q: nat)
    requires ValidRun(acts) && FirstWithPid(Exec(acts).procs, pid, q)
    ensures Exec(acts).procs[q].state == UNUSED <==> pid == 0 || pid in Exec(acts).aborted
  {
    hide Exec, ValidRun;
    RunLeftOver(acts);
  }

  predicate Reaps(a: Action, p: nat) {
    a.Reap? && a.c == p
  }

  /** A kill hit slot p and wait has not reaped the slot since. */
  predicate KillHit(acts: seq<Action>, p: nat) {
    exists k :: 0 <= k < |acts| && acts[k] == Kill(p) && forall j :: k < j < |acts| ==> !Reaps(acts[j], p)
  }

  lemma KillHitLast(acts: seq<Action>, p: nat)
    requires acts != []
    ensures var a := acts[|acts| - 1];
            KillHit(acts, p) <==> a == Kill(p) || (KillHit(acts[..|acts| - 1], p) && !Reaps(a, p))
  {
    var front, a := acts[..|acts| - 1], acts[|acts| - 1];
    if KillHit(front, p) && !Reaps(a, p) {
      var k :| 0 <= k < |front| && front[k] == Kill(p) && forall j :: k < j < |front| ==> !Reaps(front[j], p);
      assert acts[k] == Kill(p) && forall j :: k < j < |acts| ==> !Reaps(acts[j], p);
    }
    if a == Kill(p) { assert acts[|acts| - 1] == Kill(p); }
    if KillHit(acts, p) && a != Kill(p) {
      var k :| 0 <= k < |acts| && acts[k] == Kill(p) && forall j :: k < j < |acts| ==> !Reaps(acts[j], p);
      assert front[k] == Kill(p) && forall j :: k < j < |front| ==> !Reaps(front[j], p);
    }
  }

  lemma KilledStep(t: Table, a: Action, p: nat)
    requires Good(t) && Enabled(t, a) && p < NPROC
    ensures |Do(t, a).procs| == NPROC
    ensures var q, q' := t.procs[p], Do(t, a).procs[p];
            && (q'.state == UNUSED || q'.state == EMBRYO ==> q.state == UNUSED || q.state == EMBRYO || Reaps(a, p))
            && (q'.state == UNUSED || q'.state == EMBRYO || (a.Publish? && a.p == p) ==>
                  q'.killed == (a == Kill(p) || (q.killed && !Reaps(a, p))))
  {
    hide Ledger, NoMissedExit, Pids, ExitProcs;
    if a.Exit? { ExitEffect(t.procs, a.cur, t.init); }
    if a.Abort? || a.Publish? || a.SetParent? { assert InTree(t.procs, t.init, t.forks, a.p); }
  }

  /** A slot that is free or being set up is marked killed exactly when a kill hit it since it was last
      reaped, or since boot. */
  lemma {:induction false} KilledIffHit(acts: seq<Action>, p: nat)
    requires ValidRun(acts) && p < NPROC
    ensures |Exec(acts).procs| == NPROC
    ensures var q := Exec(acts).procs[p]; q.state == UNUSED || q.state == EMBRYO ==> (q.killed <==> KillHit(acts, p))
    decreases |acts|
  {
    hide Good, Do, Enabled, KillHit;
    if acts == [] {
      BootHit(p);
    } else {
      var front := acts[..|acts| - 1];
      KillHitLast(acts, p);
      RunGood(front);
      KilledIffHit(front, p);
      KilledStep(Exec(front), acts[|acts| - 1], p);
    }
  }

  lemma BootHit(p: nat)
    requires p < NPROC
    ensures |Boot().procs| == NPROC && !Boot().procs[p].killed && !KillHit([], p)
  {
    hide Good;
  }

  /** A child is born killed exactly when a kill hit its slot since the slot was last reaped, or since
      boot. */
  lemma BornKilledIff(acts: seq<Action>, p: nat)
    requires ValidRun(acts + [Publish(p)])
    ensures p < |Exec(acts + [Publish(p)]).procs|
    ensures ValidRun(acts) && (Exec(acts + [Publish(p)]).procs[p].killed <==> KillHit(acts, p))
  {
    hide Good, Do;
    assert (acts + [Publish(p)])[..|acts|] == acts;
    RunGood(acts);
    KilledIffHit(acts, p);
    EmbryoIs(Exec(acts), p);
    KilledStep(Exec(acts), Publish(p), p);
  }

  lemma EmbryoIs(t: Table, p: nat)
    requires Good(t) && Enabled(t, Publish(p))
    ensures t.procs[p].state == EMBRYO
  {
  }

  /** kill(0) right after boot succeeds, and the next child is born already killed. */
  lemma KillZero() returns (acts: seq<Action>)
    ensures ValidRun(acts) && |acts| == 5 && acts[1] == Kill(1)
    ensures FirstWithPid(Boot().procs, 0, 1)
    ensures var t := Exec(acts);
            1 < |t.procs| && t.procs[1].parent == Some(0) && t.procs[1].state == RUNNABLE && t.procs[1].killed
  {
    hide *;
    FirstScheduled();
    var t1 := Do(Boot(), Schedule(0));
    BornKilled(t1);
    var t2 := Do(t1, Kill(1));
    var t3 := Do(t2, Alloc(1, 0));
    var t4 := Do(t3, SetParent(1));
    EmptyRun();
    Extend([], Boot(), Schedule(0));
    Extend([] + [Schedule(0)], t1, Kill(1));
    Extend([] + [Schedule(0)] + [Kill(1)], t2, Alloc(1, 0));
    Extend([] + [Schedule(0)] + [Kill(1)] + [Alloc(1, 0)], t3, SetParent(1));
    Extend([] + [Schedule(0)] + [Kill(1)] + [Alloc(1, 0)] + [SetParent(1)], t4, Publish(1));
    acts := [] + [Schedule(0)] + [Kill(1)] + [Alloc(1, 0)] + [SetParent(1)] + [Publish(1)];
  }

  lemma FirstScheduled()
    ensures |Boot().procs| == NPROC && FirstWithPid(Boot().procs, 0, 1) && Enabled(Boot(), Schedule(0))
    ensures var t := Do(Boot(), Schedule(0));
            && |t.procs| == NPROC && t.procs[0].state == RUNNING
            && t.procs[1] == Proc(UNUSED, 0, None, None, false) && t.forks == map[]
  {
    hide Good;
  }

  /** With slot 1 unused, kill on it and then fork give a child that is killed from the start. */
  lemma BornKilled(t: Table)
    requires |t.procs| == NPROC && t.procs[0].state == RUNNING && t.procs[1].state == UNUSED
    requires t.procs[1].parent == None && t.forks == map[]
    ensures Enabled(t, Kill(1))
    ensures var t2 := Do(t, Kill(1)); |t2.procs| == NPROC && Enabled(t2, Alloc(1, 0))
    ensures var t3 := Do(Do(t, Kill(1)), Alloc(1, 0)); |t3.procs| == NPROC && Enabled(t3, SetParent(1))
    ensures var t4 := Do(Do(Do(t, Kill(1)), Alloc(1, 0)), SetParent(1)); |t4.procs| == NPROC && Enabled(t4, Publish(1))
    ensures var t5 := Do(Do(Do(Do(t, Kill(1)), Alloc(1, 0)), SetParent(1)), Publish(1));
            |t5.procs| == NPROC && t5.procs[1].parent == Some(0) && t5.procs[1].state == RUNNABLE && t5.procs[1].killed
  {
  }

  lemma EmptyRun()
    ensures ValidRun([]) && Exec([]) == Boot()
  {
  }

  lemma Extend(acts: seq<Action>, t: Table, a: Action)
    requires ValidRun(acts) && Exec(acts) == t && |t.procs| == NPROC && Enabled(t, a)
    ensures ValidRun(acts + [a]) && Exec(acts + [a]) == Do(t, a)
  {
    assert (acts + [a])[..|acts|] == acts;
  }
}
