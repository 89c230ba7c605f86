/** log.c in its own form: a log object updated in place.  Every method is proved to walk through
    the steps of the machine in LogProtocol, one step for each block write, so the theorems about
    runs hold of every intermediate disk that a crash could expose. */
module LogCode {
  import opened Common
  import opened LogProtocol
  import opened LogSafety
  import opened LogAnySize
  import opened LogTheorems

  ghost predicate Reached(lay: Layout, made: Disk, acts: seq<Action>, s: State) {
    Fresh(lay, made) && ValidRun(Boot(lay, made), acts) && Exec(Boot(lay, made), acts) == s
  }

  // What a method may use about the state it is in, taken from the invariant of every run.

  lemma Ready(lay: Layout, made: Disk, acts: seq<Action>, s: State)
    requires Reached(lay, made, acts, s)
    ensures |s.m.disk| == |s.m.mem| == lay.total && lay.start < lay.total
    ensures s.m.lay == lay && s.g.init == made && s.g.cut <= |s.g.history|
    ensures s.m.outstanding == |s.g.ops|
    ensures s.m.committing ==> CommitReady(s.m)
    ensures s.m.stage.ReadHead? || s.m.stage.RecInstall? || s.m.stage.RecErase? ==> RecoverReady(s.m)
    ensures s.m.stage.ReadHead? ==> s.m.mem[lay.start][0] <= LOGSIZE
    ensures s.m.stage.RecInstall? ==> s.m.stage.tail <= |s.m.lh|
    ensures s.m.stage.WriteLog? || s.m.stage.Install? || s.m.stage.Erase? ==> s.m.committing
    ensures s.m.stage == Running ==> !s.m.committing
    ensures s.m.stage == CommitDone ==> s.m.lh == [] && forall b :: Home(lay, b) ==> s.m.disk[b] == s.m.mem[b]
  {
    RunSound(lay, made, acts);
    assert s.m.stage == CommitDone ==> forall b :: Home(lay, b) && s.m.disk[b] != s.m.mem[b] ==> Dirty(s.m, b);
  }

  /** A block within the budget of a call that has passed the test has a place in lh.block. */
  lemma RoomInHeader(lay: Layout, made: Disk, acts: seq<Action>, s: State, i: nat, b: int)
    requires Reached(lay, made, acts, s) && s.m.stage == Running && i < |s.g.ops| && s.g.ops[i].tested == Some(b)
    ensures b !in s.m.lh ==> |s.m.lh| < LOGSIZE
  {
    RunSound(lay, made, acts);
    AppendOps(lay, s.m.lh, s.g.ops, i, b);
    FindAbsent(s.m.lh, b);
  }

  lemma CommitReached(lay: Layout, made: Disk, acts: seq<Action>, s: State)
    requires Reached(lay, made, acts, s) && Ample(lay) && s.m.stage == CommitDone
    ensures |s.m.disk| == |s.m.mem| == lay.total && s.m.lh == [] && s.g.cut == |s.g.history|
    ensures forall b :: Home(lay, b) ==> s.m.disk[b] == s.m.mem[b] == ContentAt(made, s.g.history, b)
  {
    RunInv(lay, made, acts);
    RunSound(lay, made, acts);
  }

  lemma CacheIsLatest(lay: Layout, made: Disk, acts: seq<Action>, s: State)
    requires Reached(lay, made, acts, s) && Ample(lay) && (s.m.stage == Running || s.m.stage == CommitCheck)
    ensures |s.m.mem| == lay.total == |made|
    ensures forall b :: Home(lay, b) ==> s.m.mem[b] == ContentAt(made, s.g.history, b)
  {
    RunInv(lay, made, acts);
    RunSound(lay, made, acts);
  }

  lemma DiskRecovers(lay: Layout, made: Disk, acts: seq<Action>, s: State)
    requires Reached(lay, made, acts, s) && Ample(lay)
    ensures GoodDisk(lay, s.m.disk) && HeadOk(lay, s.m.disk) && |made| == lay.total
    ensures s.g.cut <= |s.g.history|
    ensures forall b :: Home(lay, b) ==>
              RecoveredAt(lay, s.m.disk, b) == ContentAt(made, s.g.history[..s.g.cut], b)
    ensures s.m.stage == Running ==> forall b :: Home(lay, b) ==> RecoveredAt(lay, s.m.disk, b) == s.m.disk[b]
  {
    RunInv(lay, made, acts);
    RunSound(lay, made, acts);
  }

  lemma CopyHomeStep(s: State, t: nat)
    requires t < |s.m.lh|
    requires || (s.m.stage == Install(t) && CommitReady(s.m))
             || (s.m.stage == RecInstall(t) && RecoverReady(s.m))
    ensures var a := if s.m.stage.Install? then ACommit else ARecover;
            var st := if s.m.stage.Install? then Install(t + 1) else RecInstall(t + 1);
            && Slot(s.m.lay, t) < |s.m.mem| && 0 <= s.m.lh[t] < |s.m.mem| == |s.m.disk|
            && Enabled(s, a)
            && var v := s.m.mem[Slot(s.m.lay, t)];
               Do(s, a) == State(s.m.(disk := s.m.disk[s.m.lh[t] := v], mem := s.m.mem[s.m.lh[t] := v],
                                      stage := st), s.g)
  {
  }

  class Log {
    const lay: Layout        // log.start and log.size
    var outstanding: int
    var committing: bool
    var n: int               // log.lh.n
    const block: array<int>  // log.lh.block
    var disk: Disk
    var mem: Disk            // block contents as bread returns them

    ghost const made: Disk
    ghost var stage: Stage
    ghost var g: Ledger
    ghost var acts: seq<Action>

    ghost function Abs(): State
      requires 0 <= n <= block.Length
      reads this, block
    {
      State(Machine(lay, disk, mem, block[..n], outstanding, committing, stage), g)
    }

    /** The object is where the run recorded so far leads the machine. */
    ghost predicate Valid()
      reads this, block
    {
      && block.Length == LOGSIZE && 0 <= n <= LOGSIZE
      && Reached(lay, made, acts, Abs())
    }

    constructor (lay: Layout, d: Disk)
      requires Fresh(lay, d)
      ensures Valid() && stage == ReadHead && acts == []
      ensures this.lay == lay && made == d
    {
      this.lay := lay;
      outstanding, committing, n := 0, false, 0;
      block := new int[LOGSIZE];
      disk, mem := d, d;
      made, stage, g, acts := d, ReadHead, Ledger(d, [], [], 0), [];
    }

    ghost method Record(s: State, a: Action)
      requires block.Length == LOGSIZE && 0 <= n <= LOGSIZE && Reached(lay, made, acts, s)
      requires Enabled(s, a) && Do(s, a) == Abs()
      modifies this`acts
      ensures Valid() && acts == old(acts) + [a]
    {
      Extend(Boot(lay, made), acts, a);
      acts := acts + [a];
    }

    /** One pass of begin_op's loop under log.lock; a blocked call sleeps and tries again. */
    method TryBeginOp(ghost id: nat) returns (admitted: bool)
      requires Valid() && stage == Running
      requires forall k :: 0 <= k < |g.history| ==> g.history[k].id != id
      modifies this
      ensures Valid() && old(acts) <= acts && stage == Running
      ensures admitted <==> !BeginBlocked(old(Abs()).m)
      ensures g == if admitted
                   then old(g).(ops := old(g.ops) + [Op(id, {}, {}, None)], history := old(g.history) + [Begin(id)])
                   else old(g)
      ensures !admitted ==> Abs() == old(Abs())
    {
      ghost var s := Abs();
      if committing {
        admitted := false;
      } else if n + (outstanding + 1) * MAXOPBLOCKS > LOGSIZE {
        admitted := false;
      } else {
        outstanding := outstanding + 1;
        g := Do(s, ABegin(id)).g;
        Record(s, ABegin(id));
        admitted := true;
      }
    }

    /** A call changes the contents of a buffer it holds. */
    method Modify(ghost i: nat, b: int, v: Block)
      requires Valid() && stage == Running && i < |g.ops| && g.ops[i].tested == None && Home(lay, b) && |v| == WORDS
      requires 0 <= b < |mem|
      modifies this
      ensures Valid() && old(acts) <= acts && stage == Running && disk == old(disk)
      ensures mem == old(mem)[b := v] && |g.ops| == |old(g.ops)| && b in g.ops[i].pending
    {
      ghost var s := Abs();
      mem := mem[b := v];
      g := Do(s, AModify(i, b, v)).g;
      Record(s, AModify(i, b, v));
    }

    /** log_write before it takes log.lock; panicked reports "too big a transaction". */
    method LogWriteTest(ghost i: nat, b: int) returns (panicked: bool)
      requires Valid() && CanTest(Abs(), i, b)
      modifies this`g, this`acts
      ensures Valid() && old(acts) <= acts
      ensures panicked <==> LogWritePanics(old(Abs()).m)
      ensures panicked ==> Abs() == old(Abs())
      ensures !panicked ==> Abs() == Do(old(Abs()), ATest(i, b))
    {
      ghost var s := Abs();
      if n >= LOGSIZE || n >= lay.size - 1 {
        return true;
      }
      if outstanding < 1 {
        return true;
      }
      g := Do(s, ATest(i, b)).g;
      Record(s, ATest(i, b));
      return false;
    }

    /** log_write under log.lock, after any steps of other calls: absorb the block or append it.  The
        array index stays in range without a second test. */
    method LogWriteLocked(ghost i: nat, b: int)
      requires Valid() && stage == Running && i < |g.ops| && g.ops[i].tested == Some(b)
      modifies this`n, this`g, this`acts, block
      ensures Valid() && old(acts) <= acts
      ensures |g.ops| == |old(g.ops)| && b in block[..n] && b in g.ops[i].logged && g.ops[i].tested == None
      ensures block[..n] == old(block[..n]) + if b in old(block[..n]) then [] else [b]
    {
      ghost var s := Abs();
      RoomInHeader(lay, made, acts, s, i, b);
      var k := 0;
      while k < n
        invariant 0 <= k <= n && b !in block[..k]
      {
        if block[k] == b {
          break;
        }
        k := k + 1;
      }
      ghost var lh := block[..n];
      assert k < n ==> lh[k] == b;
      assert lh[..k] == block[..k];
      FindAt(lh, b, k);
      block[k] := b;
      if k == n {
        n := n + 1;
      }
      assert block[..n] == if k == |lh| then lh + [b] else lh;
      g := Do(s, AAppend(i, b)).g;
      Record(s, AAppend(i, b));
    }

    static lemma FindAt(bs: seq<int>, b: int, k: nat)
      requires k <= |bs| && b !in bs[..k] && (k < |bs| ==> bs[k] == b)
      ensures Find(bs, b) == k
    {
      var j := Find(bs, b);
      assert forall i :: 0 <= i < k ==> bs[..k][i] == bs[i];
      assert forall i :: 0 <= i < j ==> bs[..j][i] == bs[i];
    }

    /** end_op: the last call out commits for the whole group. */
    method EndOp(ghost i: nat)
      requires Valid() && stage == Running && i < |g.ops| && Quiet(g.ops[i])
      modifies this
      ensures Valid() && old(acts) <= acts && stage == Running
      ensures g.ops == old(g.ops[..i] + g.ops[i + 1..])
      ensures g.history == old(g.history + [End(g.ops[i].id)])
      ensures g.cut == if g.ops == [] then |g.history| else old(g.cut)
      ensures |mem| == |old(mem)| == |disk| == lay.total
      ensures Ample(lay) || g.ops != [] ==> forall b :: Home(lay, b) ==> mem[b] == old(mem)[b]
      ensures g.ops == [] ==> forall b :: Home(lay, b) ==> disk[b] == mem[b]
      ensures g.ops != [] ==> disk == old(disk)
    {
      Ready(lay, made, acts, Abs());
      var doCommit := LeaveOp(i);
      if doCommit {
        Commit();
        FinishCommit();
      }
    }

    /** The critical section of end_op after the commit. */
    method FinishCommit()
      requires Valid() && stage == CommitDone
      modifies this`committing, this`stage, this`acts
      ensures Valid() && old(acts) <= acts && stage == Running
    {
      ghost var s := Abs();
      Ready(lay, made, acts, s);
      committing := false;
      stage := Running;
      Record(s, ACommit);
    }

    /** The critical section of end_op before the commit. */
    method LeaveOp(ghost i: nat) returns (doCommit: bool)
      requires Valid() && stage == Running && i < |g.ops| && Quiet(g.ops[i])
      modifies this`outstanding, this`committing, this`stage, this`g, this`acts
      ensures Valid() && acts == old(acts) + [AEnd(i)] && doCommit == (g.ops == [])
      ensures stage == if doCommit then CommitCheck else Running
      ensures g == Do(old(Abs()), AEnd(i)).g
    {
      ghost var s := Abs();
      Ready(lay, made, acts, s);
      doCommit := false;
      outstanding := outstanding - 1;
      if outstanding == 0 {
        doCommit := true;
        committing := true;
        stage := CommitCheck;
      }
      g := Do(s, AEnd(i)).g;
      Record(s, AEnd(i));
    }

    /** commit: afterwards the home blocks hold what the cache holds and the log is empty. */
    method Commit()
      requires Valid() && stage == CommitCheck
      modifies this`disk, this`mem, this`n, this`stage, this`g, this`acts
      ensures Valid() && old(acts) <= acts && stage == CommitDone && n == 0
      ensures g == old(g).(cut := |old(g.history)|)
      ensures |disk| == |mem| == |old(mem)| == lay.total
      ensures forall b :: Home(lay, b) ==> disk[b] == mem[b]
      ensures Ample(lay) ==> forall b :: Home(lay, b) ==> mem[b] == old(mem)[b]
    {
      Ready(lay, made, acts, Abs());
      if Ample(lay) { CacheIsLatest(lay, made, acts, Abs()); }
      StartCommit();
      if n > 0 {
        WriteLog();
        WriteHead();
        InstallTrans();
        EmptyHeader();
        WriteHead();
      }
      Ready(lay, made, acts, Abs());
      if Ample(lay) { CommitReached(lay, made, acts, Abs()); }
    }

    /** commit's test for an empty transaction, which is durable at once. */
    method StartCommit()
      requires Valid() && stage == CommitCheck
      modifies this`stage, this`g, this`acts
      ensures Valid() && acts == old(acts) + [ACommit]
      ensures stage == if n > 0 then LogProtocol.Stage.WriteLog(0) else CommitDone
      ensures g == if n > 0 then old(g) else old(g).(cut := |old(g.history)|)
    {
      ghost var s := Abs();
      Ready(lay, made, acts, s);
      stage := if n > 0 then LogProtocol.Stage.WriteLog(0) else CommitDone;
      g := if n > 0 then g else g.(cut := |g.history|);
      Record(s, ACommit);
    }

    /** write_log: copy each listed block from the cache to its log slot. */
    method WriteLog()
      requires Valid() && stage == LogProtocol.Stage.WriteLog(0)
      modifies this`disk, this`mem, this`stage, this`acts
      ensures Valid() && old(acts) <= acts && stage == LogProtocol.Stage.WriteLog(n)
    {
      var tail := 0;
      while tail < n
        invariant 0 <= tail <= n && Valid() && old(acts) <= acts
        invariant stage == LogProtocol.Stage.WriteLog(tail)
      {
        CopyToLog(tail);
        tail := tail + 1;
      }
    }

    method CopyToLog(tail: int)
      requires Valid() && 0 <= tail < n && stage == LogProtocol.Stage.WriteLog(tail)
      modifies this`disk, this`mem, this`stage, this`acts
      ensures Valid() && acts == old(acts) + [ACommit] && stage == LogProtocol.Stage.WriteLog(tail + 1)
    {
      ghost var s := Abs();
      Ready(lay, made, acts, s);
      var to := Slot(lay, tail);
      var from := mem[block[tail]];
      mem := mem[to := from];
      disk := disk[to := from];
      stage := LogProtocol.Stage.WriteLog(tail + 1);
      Record(s, ACommit);
    }

    /** The stage after a header write. */
    static ghost function AfterHead(st: Stage): Stage {
      match st
      case WriteLog(_) => Install(0)
      case Erase => CommitDone
      case _ => Running
    }

    /** write_head: one block write.  It is the commit point when it ends write_log. */
    method WriteHead()
      requires Valid()
      requires stage == LogProtocol.Stage.WriteLog(n) || stage == Erase || stage == RecErase
      modifies this`disk, this`mem, this`stage, this`g, this`acts
      ensures Valid() && old(acts) <= acts && stage == AfterHead(old(stage))
      ensures g == if old(stage).WriteLog? then old(g).(cut := |old(g.history)|) else old(g)
    {
      ghost var s := Abs();
      Ready(lay, made, acts, s);
      var hb := FillHeader(mem[lay.start]);
      mem := mem[lay.start := hb];
      disk := disk[lay.start := hb];
      ghost var a := if stage == RecErase then ARecover else ACommit;
      g := Do(s, a).g;
      stage := AfterHead(stage);
      Record(s, a);
    }

    /** The word-by-word copy of the in-memory header into the header buffer. */
    method FillHeader(was: Block) returns (hb: Block)
      requires |was| == WORDS && 0 <= n <= LOGSIZE == block.Length
      ensures hb == PutHeader(was, block[..n])
    {
      hb := was[0 := n];
      var i := 0;
      while i < n
        invariant 0 <= i <= n && |hb| == WORDS && hb[0] == n
        invariant hb[1..1 + i] == block[..i] && hb[1 + i..] == was[1 + i..]
      {
        hb := hb[1 + i := block[i]];
        i := i + 1;
      }
      assert hb == [hb[0]] + hb[1..1 + n] + hb[1 + n..];
    }

    /** install_trans, called from commit and from recovery. */
    method InstallTrans()
      requires Valid() && (stage == Install(0) || stage == RecInstall(0))
      modifies this`disk, this`mem, this`stage, this`acts
      ensures Valid() && old(acts) <= acts
      ensures stage == if old(stage).Install? then Install(n) else RecInstall(n)
    {
      var tail := 0;
      while tail < n
        invariant 0 <= tail <= n && Valid() && old(acts) <= acts
        invariant stage == if old(stage).Install? then Install(tail) else RecInstall(tail)
      {
        CopyHome(tail);
        tail := tail + 1;
      }
    }

    method CopyHome(tail: int)
      requires Valid() && 0 <= tail < n && (stage == Install(tail) || stage == RecInstall(tail))
      modifies this`disk, this`mem, this`stage, this`acts
      ensures Valid() && acts == old(acts) + [if old(stage).Install? then ACommit else ARecover]
      ensures stage == if old(stage).Install? then Install(tail + 1) else RecInstall(tail + 1)
    {
      ghost var s := Abs();
      Ready(lay, made, acts, s);
      var lbuf := mem[Slot(lay, tail)];
      mem := mem[block[tail] := lbuf];
      disk := disk[block[tail] := lbuf];
      CopyHomeStep(s, tail);
      ghost var a := if stage.Install? then ACommit else ARecover;
      stage := if stage.Install? then Install(tail + 1) else RecInstall(tail + 1);
      Record(s, a);
    }

    /** The assignment log.lh.n = 0 between install_trans and the second write_head. */
    method EmptyHeader()
      requires Valid() && (stage == Install(n) || stage == RecInstall(n))
      modifies this`n, this`stage, this`acts
      ensures Valid() && old(acts) <= acts && n == 0
      ensures stage == if old(stage).Install? then Erase else RecErase
    {
      ghost var s := Abs();
      Ready(lay, made, acts, s);
      n := 0;
      ghost var a := if stage.Install? then ACommit else ARecover;
      stage := if stage.Install? then Erase else RecErase;
      Record(s, a);
    }

    /** read_head: load the on-disk header into memory. */
    method LoadHead()
      requires Valid() && stage == ReadHead
      modifies this`n, this`stage, this`acts, block
      ensures Valid() && old(acts) <= acts && stage == RecInstall(0)
    {
      ghost var s := Abs();
      Ready(lay, made, acts, s);
      var lh := mem[lay.start];
      n := lh[0];
      var i := 0;
      while i < n
        invariant 0 <= i <= n == lh[0] && block[..i] == lh[1..1 + i]
        modifies block
      {
        block[i] := lh[1 + i];
        i := i + 1;
      }
      stage := RecInstall(0);
      Record(s, ARecover);
    }

    /** recover_from_log: the home blocks become what RecoveredAt says, and the log is empty. */
    method RecoverFromLog()
      requires Valid() && stage == ReadHead
      modifies this, block
      ensures Valid() && old(acts) <= acts && stage == Running && n == 0 && g == old(g)
      ensures Ample(lay) ==> GoodDisk(lay, old(disk)) && HeadOk(lay, old(disk)) && |disk| == lay.total
      ensures Ample(lay) ==> forall b :: Home(lay, b) ==> disk[b] == RecoveredAt(lay, old(disk), b)
    {
      if Ample(lay) { DiskRecovers(lay, made, acts, Abs()); }
      LoadHead();
      InstallTrans();
      EmptyHeader();
      WriteHead();
      if Ample(lay) { DiskRecovers(lay, made, acts, Abs()); }
    }

    /** A power failure at any moment: memory is lost, the disk stays, the kernel boots again. */
    method Crash()
      requires Valid()
      modifies this, block
      ensures Valid() && old(acts) <= acts && stage == ReadHead && disk == old(disk)
      ensures old(g.cut) <= |old(g.history)| && g.history == old(g.history)[..old(g.cut)] && g.cut == old(g.cut)
    {
      ghost var s := Abs();
      Ready(lay, made, acts, s);
      mem, n, outstanding, committing, stage := disk, 0, 0, false, ReadHead;
      g := Do(s, ACrash).g;
      Record(s, ACrash);
    }
  }
}
