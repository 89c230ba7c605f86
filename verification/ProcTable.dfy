/** proc.c's own form: the table scans of allocproc, wakeup1, exit, wait and kill, in place.  Each
    method is proved to be one action on the table of ExitWait. */
module ProcTable {
  import opened Common
  import opened ExitWait

  datatype WaitResult = Reaped(pid: int) | NoChild | Asleep

  class Ptable {
    var proc: seq<Proc>
    var nextpid: int
    const initproc: nat
    ghost var forks: map<nat, nat>
    ghost var exited: set<int>
    ghost var reaped: seq<int>
    ghost var aborted: set<int>

    ghost function Abs(): Table reads this { Table(proc, nextpid, initproc, forks, exited, reaped, aborted) }

    ghost predicate Valid() reads this { Good(Abs()) }

    constructor ()
      ensures Valid() && Abs() == Boot()
    {
      proc := Boot().procs;
      nextpid := 2;
      initproc := 0;
      forks, exited, reaped, aborted := map[], {}, [], {};
    }

    /** allocproc's search, called by fork of process cur. */
    method Allocproc(ghost cur: nat) returns (np: Option<nat>)
      requires Valid() && cur < NPROC && proc[cur].state == RUNNING
      modifies this`proc, this`nextpid, this`forks
      ensures Valid()
      ensures np == None ==> unchanged(this) && forall p :: 0 <= p < NPROC ==> proc[p].state != UNUSED
      ensures np.Some? ==>
                && np.value < NPROC && Enabled(old(Abs()), Alloc(np.value, cur))
                && Abs() == Do(old(Abs()), Alloc(np.value, cur))
      ensures np.Some? ==> forall p :: 0 <= p < np.value ==> old(proc)[p].state != UNUSED
    {
      hide Good;
      GoodSize(Abs());
      var p := 0;
      while p < NPROC
        invariant 0 <= p <= NPROC && unchanged(this)
        invariant forall q :: 0 <= q < p ==> proc[q].state != UNUSED
      {
        if proc[p].state == UNUSED {
          AllocGood(Abs(), p, cur);
          proc := proc[p := proc[p].(state := EMBRYO, pid := nextpid)];
          nextpid := nextpid + 1;
          forks := forks[p := cur];
          return Some(p);
        }
        p := p + 1;
      }
      return None;
    }

    /** wakeup1: wake every process that sleeps on chan. */
    method Wakeup(chan: Chan)
      requires |proc| == NPROC
      modifies this`proc
      ensures proc == Wakeup1(old(proc), chan)
    {
      var p := 0;
      while p < NPROC
        invariant 0 <= p <= NPROC == |proc|
        invariant forall q :: 0 <= q < p ==> proc[q] == Wakeup1(old(proc), chan)[q]
        invariant forall q :: p <= q < NPROC ==> proc[q] == old(proc)[q]
      {
        if proc[p].state == SLEEPING && proc[p].chan == Some(chan) {
          proc := proc[p := proc[p].(state := RUNNABLE)];
        }
        p := p + 1;
      }
    }

    /** exit, from the wakeup of the parent to the ZOMBIE state. */
    method Exit(cur: nat)
      requires Valid() && cur < NPROC && Enabled(Abs(), ExitWait.Exit(cur))
      modifies this`proc, this`exited
      ensures Valid() && Abs() == Do(old(Abs()), ExitWait.Exit(cur))
    {
      hide Good;
      GoodSize(Abs());
      ExitGood(Abs(), cur);
      Wakeup(Self(proc[cur].parent.value));
      GiveToInit(cur);
      exited := exited + {proc[cur].pid};
      ExitEffect(old(proc), cur, initproc);
      proc := proc[cur := proc[cur].(state := ZOMBIE)];
    }

    /** exit's loop over the abandoned children. */
    method GiveToInit(cur: nat)
      requires |proc| == NPROC && cur < NPROC && cur != initproc < NPROC
      modifies this`proc
      ensures proc == Orphan(old(proc), cur, initproc)
    {
      var p := 0;
      while p < NPROC
        invariant 0 <= p <= NPROC == |proc|
        invariant proc == HalfOrphan(old(proc), cur, initproc, p)
      {
        HalfOrphanStep(old(proc), cur, initproc, p);
        if proc[p].parent == Some(cur) {
          proc := proc[p := proc[p].(parent := Some(initproc))];
          if proc[p].state == ZOMBIE {
            Wakeup(Self(initproc));
          }
        }
        p := p + 1;
      }
      HalfOrphanWhole(old(proc), cur, initproc);
    }

    /** One pass of wait's outer loop: reap a zombie child, give up, or go to sleep. */
    method Wait(cur: nat) returns (r: WaitResult)
      requires Valid() && cur < NPROC && proc[cur].state == RUNNING
      modifies this`proc, this`reaped
      ensures Valid()
      ensures r.Reaped? <==> ZombieChild(old(proc), cur, NPROC)
      ensures r.Reaped? ==>
                exists c :: && 0 <= c < NPROC && Enabled(old(Abs()), Reap(cur, c)) && old(proc)[c].pid == r.pid
                            && Abs() == Do(old(Abs()), Reap(cur, c))
      ensures r == NoChild <==>
                && !ZombieChild(old(proc), cur, NPROC)
                && (old(proc)[cur].killed || forall c :: 0 <= c < NPROC ==> old(proc)[c].parent != Some(cur))
      ensures r == NoChild ==> unchanged(this)
      ensures r == Asleep ==>
                && Abs() == Do(old(Abs()), WaitSleep(cur))
                && exists c :: 0 <= c < NPROC && old(proc)[c].parent == Some(cur)
    {
      hide Good;
      GoodSize(Abs());
      var havekids := false;
      var p := 0;
      while p < NPROC
        invariant 0 <= p <= NPROC && unchanged(this)
        invariant havekids <==> exists c :: 0 <= c < p && proc[c].parent == Some(cur)
        invariant !ZombieChild(proc, cur, p)
      {
        if proc[p].parent == Some(cur) {
          havekids := true;
          if proc[p].state == ZOMBIE {
            assert ZombieChild(proc, cur, NPROC);
            ReapGood(Abs(), cur, p);
            var pid := proc[p].pid;
            proc := proc[p := Proc(UNUSED, 0, None, proc[p].chan, false)];
            reaped := reaped + [pid];
            assert Abs() == Do(old(Abs()), Reap(cur, p));
            return Reaped(pid);
          }
        }
        p := p + 1;
      }
      if !havekids || proc[cur].killed {
        return NoChild;
      }
      StateStepGood(Abs(), WaitSleep(cur));
      proc := proc[cur := proc[cur].(chan := Some(Self(cur)), state := SLEEPING)];
      return Asleep;
    }

    /** kill: found is the slot that was marked. */
    method Kill(pid: int) returns (r: int, ghost found: nat)
      requires Valid()
      modifies this`proc
      ensures Valid() && (r == 0 || r == -1)
      ensures r == 0 ==>
                FirstWithPid(old(proc), pid, found) && found < NPROC && Abs() == Do(old(Abs()), ExitWait.Kill(found))
      ensures r == 0 ==> && proc[found].killed && proc[found].state != SLEEPING
                         && (old(proc)[found].state == SLEEPING ==> proc[found].state == RUNNABLE)
                         && (old(proc)[found].state != SLEEPING ==> proc[found].state == old(proc)[found].state)
                         && forall p :: 0 <= p < NPROC && p != found ==> proc[p] == old(proc)[p]
      ensures r == -1 <==> forall p :: 0 <= p < NPROC ==> old(proc)[p].pid != pid
      ensures r == -1 ==> unchanged(this)
    {
      hide Good;
      GoodSize(Abs());
      found := 0;
      var p := 0;
      while p < NPROC
        invariant 0 <= p <= NPROC && unchanged(this)
        invariant forall q :: 0 <= q < p ==> proc[q].pid != pid
      {
        if proc[p].pid == pid {
          StateStepGood(Abs(), ExitWait.Kill(p));
          proc := proc[p := proc[p].(killed := true)];
          if proc[p].state == SLEEPING {
            proc := proc[p := proc[p].(state := RUNNABLE)];
          }
          assert proc == old(proc)[p := KilledProc(old(proc)[p])];
          return 0, p;
        }
        p := p + 1;
      }
      r := -1;
    }
  }

  /** exit's loop after the first n slots. */
  function HalfOrphan(procs: seq<Proc>, cur: nat, init: nat, n: nat): (r: seq<Proc>)
    requires n <= |procs|
    ensures |r| == |procs|
  {
    var r := seq(|procs|, i requires 0 <= i < |procs| =>
      if i < n && procs[i].parent == Some(cur) then procs[i].(parent := Some(init)) else procs[i]);
    if ZombieChild(procs, cur, n) then Wakeup1(r, Self(init)) else r
  }

  lemma HalfOrphanStep(procs: seq<Proc>, cur: nat, init: nat, n: nat)
    requires n < |procs| && cur != init
    ensures var r, r' := HalfOrphan(procs, cur, init, n), HalfOrphan(procs, cur, init, n + 1);
            if r[n].parent == Some(cur) then
              var s := r[n := r[n].(parent := Some(init))];
              r' == if r[n].state == ZOMBIE then Wakeup1(s, Self(init)) else s
            else r' == r
  {
    assert ZombieChild(procs, cur, n + 1) <==>
           ZombieChild(procs, cur, n) || (procs[n].parent == Some(cur) && procs[n].state == ZOMBIE);
  }

  lemma HalfOrphanWhole(procs: seq<Proc>, cur: nat, init: nat)
    ensures HalfOrphan(procs, cur, init, |procs|) == Orphan(procs, cur, init)
  {
  }
}
