/** What the log promises, stated over every run of the machine with crashes anywhere. */
module LogTheorems {
  import opened Common
  import opened LogProtocol
  import opened LogSafety
  import opened LogAnySize

  // ---- Crash atomicity ----

  lemma {:induction false} OpenedSince(h: seq<Event>, c: nat, k: nat, id: nat) returns (j: nat)
    requires c <= k <= |h| && Open(h[..c]) == {} && id in Open(h[..k])
    ensures c <= j < k && h[j] == Begin(id)
    decreases k
  {
    assert h[..k][..k - 1] == h[..k - 1];
    if h[k - 1] == Begin(id) {
      j := k - 1;
    } else {
      j := OpenedSince(h, c, k - 1, id);
    }
  }

  /** A cut with no open call splits the history by whole calls. */
  lemma CutSeparates(lay: Layout, h: seq<Event>, c: nat, j: nat, k: nat)
    requires ProperHistory(lay, h) && c <= |h| && Open(h[..c]) == {}
    requires j < c <= k < |h|
    ensures h[j].id != h[k].id
  {
    assert ProperEvent(lay, h, k);
    if !h[k].Begin? {
      var i := OpenedSince(h, c, k, h[k].id);
      assert ProperEvent(lay, h, i);
    }
  }

  /** Recovery from the disk of s would leave every home block with the writes of the durable part
      of the history, and no call is split between that part and the rest. */
  ghost predicate Atomic(lay: Layout, d: Disk, s: State) {
    && s.m.lay == lay && s.g.init == d && |d| == lay.total && GoodDisk(lay, s.m.disk) && HeadOk(lay, s.m.disk)
    && s.g.cut <= |s.g.history|
    && (forall b :: Home(lay, b) ==> RecoveredAt(lay, s.m.disk, b) == ContentAt(d, s.g.history[..s.g.cut], b))
    && (forall j, k :: 0 <= j < s.g.cut <= k < |s.g.history| ==> s.g.history[j].id != s.g.history[k].id)
    && Open(s.g.history[..s.g.cut]) == {}
  }

  /** With an ample log, whatever point of whatever run the crash hits, the recovered home blocks are
      the writes of a prefix of the history that splits no call. */
  lemma CrashAtomicity(lay: Layout, d: Disk, acts: seq<Action>)
    requires Fresh(lay, d) && Ample(lay) && ValidRun(Boot(lay, d), acts)
    ensures Atomic(lay, d, Exec(Boot(lay, d), acts))
  {
    RunInv(lay, d, acts);
    RunSound(lay, d, acts);
    var s := Exec(Boot(lay, d), acts);
    forall j, k | 0 <= j < s.g.cut <= k < |s.g.history|
      ensures s.g.history[j].id != s.g.history[k].id
    {
      CutSeparates(lay, s.g.history, s.g.cut, j, k);
    }
  }

  /** Outside commit and recovery the disk itself holds the durable contents, and when no call
      is in progress those are the contents after every call of the history. */
  lemma Durability(lay: Layout, d: Disk, acts: seq<Action>)
    requires Fresh(lay, d) && Ample(lay) && ValidRun(Boot(lay, d), acts)
    requires Exec(Boot(lay, d), acts).m.stage == Running
    ensures var s := Exec(Boot(lay, d), acts);
            && |s.m.disk| == |d| && s.g.cut <= |s.g.history|
            && (forall b :: Home(lay, b) ==> s.m.disk[b] == ContentAt(d, s.g.history[..s.g.cut], b))
            && (s.m.outstanding == 0 ==> s.g.cut == |s.g.history|)
  {
    RunInv(lay, d, acts);
    RunSound(lay, d, acts);
    var s := Exec(Boot(lay, d), acts);
    forall b | Home(lay, b) ensures s.m.disk[b] == ContentAt(d, s.g.history[..s.g.cut], b) {
      assert RecoveredAt(lay, s.m.disk, b) == s.m.disk[b];
    }
  }

  /** What is durable stays durable through every later step, crashes included. */
  lemma {:induction false} DurableForever(lay: Layout, d: Disk, acts: seq<Action>, k: nat)
    requires Fresh(lay, d) && ValidRun(Boot(lay, d), acts) && k <= |acts|
    ensures ValidRun(Boot(lay, d), acts[..k])
    ensures var s, s' := Exec(Boot(lay, d), acts[..k]), Exec(Boot(lay, d), acts);
            && s.g.cut <= |s.g.history| && s'.g.cut <= |s'.g.history|
            && s.g.history[..s.g.cut] <= s'.g.history[..s'.g.cut]
    decreases |acts|
  {
    hide StageSound, LogAnySize.Sizes, HeaderSound, Enabled, Do;
    var n := |acts|;
    RunSound(lay, d, acts);
    if k == n {
      assert acts[..k] == acts;
    } else {
      var before := acts[..n - 1];
      RunSound(lay, d, before);
      DurableForever(lay, d, before, k);
      assert before[..k] == acts[..k];
      StepKeepsDurable(Exec(Boot(lay, d), before), acts[n - 1]);
    }
  }

  lemma StepKeepsDurable(s: State, a: Action)
    requires Sound(s) && Enabled(s, a)
    ensures var s' := Do(s, a);
            s'.g.cut <= |s'.g.history| && s.g.history[..s.g.cut] <= s'.g.history[..s'.g.cut]
  {
    var s' := Do(s, a);
    SoundStep(s, a);
    assert s.g.cut <= s'.g.cut;
    assert forall k :: 0 <= k < s.g.cut ==> s'.g.history[k] == s.g.history[k];
  }

  // ---- Group commit, for a log of any size ----

  /** While committing is set no call is in progress, so the transaction on its way to disk holds
      all the writes of the calls it covers: every block that differs from the disk is listed. */
  lemma GroupCommit(lay: Layout, d: Disk, acts: seq<Action>)
    requires Fresh(lay, d) && ValidRun(Boot(lay, d), acts)
    ensures var s := Exec(Boot(lay, d), acts);
            && s.m.outstanding == |s.g.ops| && |s.m.mem| == |s.m.disk| == |d|
            && (s.m.committing ==> s.m.outstanding == 0 && Open(s.g.history) == {})
            && (s.m.committing && (s.m.stage.CommitCheck? || s.m.stage.WriteLog?) ==>
                  forall b :: Home(lay, b) && s.m.mem[b] != s.m.disk[b] ==> b in s.m.lh)
  {
    RunSound(lay, d, acts);
    var s := Exec(Boot(lay, d), acts);
    assert forall b :: Home(lay, b) && s.m.mem[b] != s.m.disk[b] ==> Dirty(s.m, b);
  }

  /** end_op's panic "log.committing" cannot happen: a call that is still to end excludes it. */
  lemma EndOpNeverPanics(lay: Layout, d: Disk, acts: seq<Action>, i: nat)
    requires Fresh(lay, d) && ValidRun(Boot(lay, d), acts)
    requires i < |Exec(Boot(lay, d), acts).g.ops|
    ensures !Exec(Boot(lay, d), acts).m.committing
    ensures Exec(Boot(lay, d), acts).m.outstanding >= 1
  {
    RunSound(lay, d, acts);
  }

  // ---- Reservation ----

  /** Call i has changed block b, which the log does not hold yet, and b is within its budget. */
  ghost predicate NewBlockInBudget(s: State, i: nat, b: int) {
    CanTest(s, i, b) && b !in s.m.lh
  }

  ghost predicate AlwaysASlot(lay: Layout, d: Disk) {
    forall acts: seq<Action>, i: nat, b: int ::
      ValidRun(Boot(lay, d), acts) && NewBlockInBudget(Exec(Boot(lay, d), acts), i, b) ==>
        !LogWritePanics(Exec(Boot(lay, d), acts).m)
  }

  lemma {:induction false} UnusedAtLeast(ops: seq<Op>, i: nat)
    requires i < |ops| && forall op :: op in ops ==> |op.logged| <= MAXOPBLOCKS
    ensures Unused(ops) >= MAXOPBLOCKS - |ops[i].logged|
  {
    if i > 0 { UnusedAtLeast(ops[1..], i - 1); } else { UnusedNonneg(ops[1..]); }
  }

  /** In every reachable state lh.n plus the unused budgets fits in LOGSIZE. */
  lemma Reservation(lay: Layout, d: Disk, acts: seq<Action>)
    requires Fresh(lay, d) && ValidRun(Boot(lay, d), acts)
    requires Exec(Boot(lay, d), acts).m.stage == Running
    ensures var s := Exec(Boot(lay, d), acts);
            && |s.m.lh| + Unused(s.g.ops) <= LOGSIZE
            && ValidTargets(lay, s.m.lh)
            && (forall i: nat, b: int :: NewBlockInBudget(s, i, b) ==> |s.m.lh| < LOGSIZE)
  {
    RunSound(lay, d, acts);
    var s := Exec(Boot(lay, d), acts);
    forall i: nat, b: int | NewBlockInBudget(s, i, b) ensures |s.m.lh| < LOGSIZE {
      UnusedAtLeast(s.g.ops, i);
      assert b !in s.g.ops[i].logged;
    }
  }

  /** With a log of more than LOGSIZE blocks, a call that has logged fewer than MAXOPBLOCKS blocks never
      meets log_write's panic, whether it writes a new block or one that the log holds. */
  lemma LightCallNeverPanics(lay: Layout, d: Disk, acts: seq<Action>, i: nat, b: int)
    requires Fresh(lay, d) && ValidRun(Boot(lay, d), acts) && lay.size > LOGSIZE
    requires var s := Exec(Boot(lay, d), acts); CanTest(s, i, b) && |s.g.ops[i].logged| < MAXOPBLOCKS
    ensures !LogWritePanics(Exec(Boot(lay, d), acts).m)
  {
    hide ValidRun, Exec, Boot, Fresh;
    RunSound(lay, d, acts);
    UnusedAtLeast(Exec(Boot(lay, d), acts).g.ops, i);
  }

  /** The k-th home block. */
  function HomeBlock(lay: Layout, k: nat): nat {
    if k < lay.start then k else k + lay.size
  }

  function HomeBlocks(lay: Layout, k: nat): (bs: seq<int>)
    ensures |bs| == k && forall x :: 0 <= x < k ==> bs[x] == HomeBlock(lay, x)
  {
    if k == 0 then [] else HomeBlocks(lay, k - 1) + [HomeBlock(lay, k - 1)]
  }

  ghost predicate Roomy(lay: Layout) {
    lay.total >= lay.size + LOGSIZE
  }

  const ZEROS: Block := seq(WORDS, _ => 0)

  /** The blocks below k that call j of three logs, taking turns. */
  ghost function Turn(lay: Layout, j: nat, k: nat): set<int> {
    if k == 0 then {} else Turn(lay, j, k - 1) + if (k - 1) % 3 == j then {HomeBlock(lay, k - 1)} else {}
  }

  lemma {:induction false} TurnSize(lay: Layout, j: nat, k: nat)
    requires j < 3
    ensures 3 * |Turn(lay, j, k)| <= k + 2 - j
  {
    if k > 0 {
      var t := Turn(lay, j, k - 1);
      TurnSize(lay, j, k - 1);
      if (k - 1) % 3 == j {
        TurnRoom(k - 1, j, |t|);
        AddOne(t, HomeBlock(lay, k - 1));
      }
    }
  }

  lemma AddOne(s: set<int>, x: int)
    ensures |s + {x}| <= |s| + 1
  {
  }

  /** With a block of its own next, a call has logged a third of the blocks before it. */
  lemma TurnRoom(k: nat, j: nat, n: nat)
    requires j < 3 && k % 3 == j && 3 * n <= k + 2 - j
    ensures 3 * n <= k - j
  {
  }

  lemma NotItsTurn(lay: Layout, k: nat)
    ensures Turn(lay, (k + 1) % 3, k + 1) == Turn(lay, (k + 1) % 3, k)
  {
    assert k % 3 != (k + 1) % 3;
  }

  /** The call whose turn is at block m still has room when k blocks are logged. */
  lemma NextFits(lay: Layout, k: nat, m: nat)
    requires k <= m < LOGSIZE && m <= k + 1
    ensures |Turn(lay, m % 3, k) + {HomeBlock(lay, m) as int}| <= MAXOPBLOCKS
  {
    hide Turn, HomeBlock;
    var j := m % 3;
    TurnSize(lay, j, m);
    TurnRoom(m, j, |Turn(lay, j, m)|);
    if m == k + 1 { NotItsTurn(lay, k); }
    AddOne(Turn(lay, j, k), HomeBlock(lay, m));
  }

  /** Three calls are in progress; taking turns they have logged the first k home blocks.  Nothing has
      been committed. */
  ghost predicate Filled(lay: Layout, d: Disk, s: State, k: nat) {
    && s.m.lay == lay && s.m.stage == Running && |s.g.ops| == 3 && s.m.outstanding == 3
    && s.m.disk == d && |s.m.mem| == lay.total && s.g.cut == 0
    && s.m.lh == HomeBlocks(lay, k)
    && forall j :: 0 <= j < 3 ==> s.g.ops[j].logged == Turn(lay, j, k) && Quiet(s.g.ops[j])
  }

  ghost predicate Quiet(op: Op) {
    op.pending == {} && op.tested == None
  }

  lemma Extend(s0: State, acts: seq<Action>, a: Action)
    requires ValidRun(s0, acts) && Enabled(Exec(s0, acts), a)
    ensures ValidRun(s0, acts + [a]) && Exec(s0, acts + [a]) == Do(Exec(s0, acts), a)
  {
    assert (acts + [a])[..|acts|] == acts;
  }

  /** Booting a fresh disk: read the empty header, install nothing, erase it again. */
  lemma BootRuns(lay: Layout, d: Disk) returns (acts: seq<Action>)
    requires Fresh(lay, d)
    ensures ValidRun(Boot(lay, d), acts)
    ensures var s := Exec(Boot(lay, d), acts);
            && s.m.lay == lay && s.m.stage == Running && !s.m.committing && s.m.outstanding == 0 && s.m.disk == d
            && s.m.lh == [] && |s.m.mem| == lay.total && s.g.ops == [] && s.g.history == [] && s.g.cut == 0
  {
    var s0 := Boot(lay, d);
    acts := [];
    Extend(s0, acts, ARecover);
    acts := acts + [ARecover];
    Extend(s0, acts, ARecover);
    acts := acts + [ARecover];
    Extend(s0, acts, ARecover);
    acts := acts + [ARecover];
    assert PutHeader(d[lay.start], []) == d[lay.start];
  }

  lemma BootAndBegin(lay: Layout, d: Disk) returns (acts: seq<Action>)
    requires Fresh(lay, d)
    ensures ValidRun(Boot(lay, d), acts) && Filled(lay, d, Exec(Boot(lay, d), acts), 0)
  {
    hide ValidRun, Exec, Fresh, Boot;
    var s0 := Boot(lay, d);
    acts := BootRuns(lay, d);
    var s := Exec(s0, acts);
    Extend(s0, acts, ABegin(0));
    var s1 := Do(s, ABegin(0));
    assert s1.g.ops == [Op(0, {}, {}, None)] && s1.g.history == [Begin(0)];
    Extend(s0, acts + [ABegin(0)], ABegin(1));
    var s2 := Do(s1, ABegin(1));
    assert s2.g.ops == [Op(0, {}, {}, None), Op(1, {}, {}, None)] && s2.g.history == [Begin(0), Begin(1)];
    Extend(s0, acts + [ABegin(0)] + [ABegin(1)], ABegin(2));
    acts := acts + [ABegin(0)] + [ABegin(1)] + [ABegin(2)];
    assert Do(s2, ABegin(2)).g.ops == [Op(0, {}, {}, None), Op(1, {}, {}, None), Op(2, {}, {}, None)];
  }

  /** One call changes a new block and logs it. */
  lemma LogOne(s: State, i: nat, b: int, v: Block)
    requires s.m.stage == Running && i < |s.g.ops| && Quiet(s.g.ops[i]) && Home(s.m.lay, b) && |v| == WORDS
    requires b < |s.m.mem|
    requires |s.g.ops[i].logged + {b}| <= MAXOPBLOCKS && !LogWritePanics(s.m) && b !in s.m.lh
    ensures Enabled(s, AModify(i, b, v)) && Enabled(Do(s, AModify(i, b, v)), ATest(i, b))
    ensures Enabled(Do(Do(s, AModify(i, b, v)), ATest(i, b)), AAppend(i, b))
    ensures var s' := Do(Do(Do(s, AModify(i, b, v)), ATest(i, b)), AAppend(i, b));
            && s'.m == s.m.(mem := s.m.mem[b := v], lh := s.m.lh + [b])
            && s'.g.ops == s.g.ops[i := s.g.ops[i].(logged := s.g.ops[i].logged + {b})] && s'.g.cut == s.g.cut
  {
    FindAbsent(s.m.lh, b);
    var op := s.g.ops[i];
    assert op.pending + {b} - {b} == op.pending;
  }

  lemma FillOne(lay: Layout, d: Disk, acts: seq<Action>, k: nat) returns (acts': seq<Action>)
    requires Fresh(lay, d) && Roomy(lay) && k < LOGSIZE && k < lay.size - 1
    requires ValidRun(Boot(lay, d), acts) && Filled(lay, d, Exec(Boot(lay, d), acts), k)
    ensures ValidRun(Boot(lay, d), acts') && Filled(lay, d, Exec(Boot(lay, d), acts'), k + 1)
  {
    hide ValidRun, Exec, Fresh, Boot, Do, Enabled;
    var s0 := Boot(lay, d);
    var s := Exec(s0, acts);
    var i, b := k % 3, HomeBlock(lay, k);
    var change, test, log := AModify(i, b, ZEROS), ATest(i, b), AAppend(i, b);
    NextFits(lay, k, k);
    LogOne(s, i, b, ZEROS);
    Extend(s0, acts, change);
    Extend(s0, acts + [change], test);
    Extend(s0, acts + [change] + [test], log);
    acts' := acts + [change] + [test] + [log];
  }

  lemma {:induction false} FillLog(lay: Layout, d: Disk, k: nat) returns (acts: seq<Action>)
    requires Fresh(lay, d) && Roomy(lay) && k <= LOGSIZE && k <= lay.size - 1
    ensures ValidRun(Boot(lay, d), acts) && Filled(lay, d, Exec(Boot(lay, d), acts), k)
  {
    if k == 0 {
      acts := BootAndBegin(lay, d);
    } else {
      acts := FillLog(lay, d, k - 1);
      acts := FillOne(lay, d, acts, k - 1);
    }
  }

  /** The exact condition: a call within its budget always finds a slot for a new block if and
      only if the on-disk log has more than LOGSIZE blocks.  A log of LOGSIZE blocks, as mkfs
      makes it, is one too small. */
  lemma SlotIffLogLargeEnough(lay: Layout, d: Disk)
    requires Fresh(lay, d) && Roomy(lay)
    ensures AlwaysASlot(lay, d) <==> lay.size > LOGSIZE
  {
    if lay.size > LOGSIZE {
      forall acts: seq<Action>, i: nat, b: int |
        ValidRun(Boot(lay, d), acts) && NewBlockInBudget(Exec(Boot(lay, d), acts), i, b)
        ensures !LogWritePanics(Exec(Boot(lay, d), acts).m)
      {
        Reservation(lay, d, acts);
        RunSound(lay, d, acts);
        EndOpNeverPanics(lay, d, acts, i);
      }
    } else {
      var acts, i, b := NoSlot(lay, d);
    }
  }

  /** A run after which a call within its budget is refused a slot. */
  lemma NoSlot(lay: Layout, d: Disk) returns (acts: seq<Action>, i: nat, b: int)
    requires Fresh(lay, d) && Roomy(lay) && lay.size <= LOGSIZE
    ensures ValidRun(Boot(lay, d), acts)
    ensures NewBlockInBudget(Exec(Boot(lay, d), acts), i, b) && LogWritePanics(Exec(Boot(lay, d), acts).m)
  {
    hide ValidRun, Exec, Boot, Fresh;
    var k := lay.size - 1;
    var s0 := Boot(lay, d);
    assert lay.size >= 1 by { FreshSize(lay, d); }
    acts := FillLog(lay, d, k);
    i, b := k % 3, HomeBlock(lay, k);
    NextFits(lay, k, k);
    Extend(s0, acts, AModify(i, b, ZEROS));
    acts := acts + [AModify(i, b, ZEROS)];
  }

  lemma FreshSize(lay: Layout, d: Disk)
    requires Fresh(lay, d)
    ensures lay.size >= 1 && |d| == lay.total && lay.start + 1 + LOGSIZE <= lay.total
    ensures forall b :: 0 <= b < |d| ==> |d[b]| == WORDS
  {
  }

  /** The room test comes before absorption, so even with a large log there is a run in which a
      call within its budget panics by writing a block that the full log already holds. */
  lemma FullLogRejectsRewrites(lay: Layout, d: Disk) returns (acts: seq<Action>)
    requires Fresh(lay, d) && Roomy(lay) && lay.size > LOGSIZE
    ensures ValidRun(Boot(lay, d), acts)
    ensures var s := Exec(Boot(lay, d), acts); s.m.lh != [] && CanTest(s, 0, s.m.lh[0]) && LogWritePanics(s.m)
  {
    hide ValidRun, Exec, Boot, Fresh;
    var s0 := Boot(lay, d);
    acts := FillLog(lay, d, LOGSIZE);
    var s := Exec(s0, acts);
    var b := HomeBlock(lay, 0);
    TurnSize(lay, 0, LOGSIZE);
    FirstTurn(lay, LOGSIZE);
    assert s.g.ops[0].logged + {b} == s.g.ops[0].logged;
    Extend(s0, acts, AModify(0, b, ZEROS));
    acts := acts + [AModify(0, b, ZEROS)];
  }

  lemma {:induction false} FirstTurn(lay: Layout, k: nat)
    requires k > 0
    ensures HomeBlock(lay, 0) in Turn(lay, 0, k)
  {
    if k > 1 { FirstTurn(lay, k - 1); }
  }

  /** In every run, a call that has logged at most k blocks passes log_write's test. */
  ghost predicate NoPanicUpTo(lay: Layout, d: Disk, k: nat) {
    forall acts: seq<Action>, i: nat, b: int :: ValidRun(Boot(lay, d), acts) ==>
      var s := Exec(Boot(lay, d), acts);
      CanTest(s, i, b) && |s.g.ops[i].logged| <= k ==> !LogWritePanics(s.m)
  }

  /** The exact condition, with a log of more than LOGSIZE blocks: the panic needs a call that has used its
      whole budget, and such a call can meet it. */
  lemma NoPanicIffBudgetLeft(lay: Layout, d: Disk, k: nat)
    requires Fresh(lay, d) && Roomy(lay) && lay.size > LOGSIZE
    ensures NoPanicUpTo(lay, d, k) <==> k < MAXOPBLOCKS
  {
    hide ValidRun, Exec, Boot, Fresh;
    if k < MAXOPBLOCKS {
      forall acts: seq<Action>, i: nat, b: int | ValidRun(Boot(lay, d), acts) ensures
          var s := Exec(Boot(lay, d), acts);
          CanTest(s, i, b) && |s.g.ops[i].logged| <= k ==> !LogWritePanics(s.m)
      {
        var s := Exec(Boot(lay, d), acts);
        if CanTest(s, i, b) && |s.g.ops[i].logged| <= k { LightCallNeverPanics(lay, d, acts, i, b); }
      }
    } else {
      var acts := FullLogRejectsRewrites(lay, d);
      RunSound(lay, d, acts);
      var s := Exec(Boot(lay, d), acts);
      assert s.g.ops[0] in s.g.ops;
      assert CanTest(s, 0, s.m.lh[0]) && |s.g.ops[0].logged| <= k;
    }
  }

  /** A chunk of filewrite never meets the panic: none of its log_writes finds the whole budget used
      (before: what the chunk logs before its last log_write). */
  lemma ChunkNeverPanics(lay: Layout, d: Disk, acts: seq<Action>, i: nat, b: int, before: set<int>)
    requires Fresh(lay, d) && ValidRun(Boot(lay, d), acts) && lay.size > LOGSIZE
    requires var s := Exec(Boot(lay, d), acts); CanTest(s, i, b) && s.g.ops[i].logged <= before
    requires |before| < MAXOPBLOCKS
    ensures !LogWritePanics(Exec(Boot(lay, d), acts).m)
  {
    hide ValidRun, Exec, Boot, Fresh;
    var logged := Exec(Boot(lay, d), acts).g.ops[i].logged;
    assert before == logged + (before - logged);
    LightCallNeverPanics(lay, d, acts, i, b);
  }

  // ---- Two calls pass the test together ----

  ghost predicate CrashSafe(lay: Layout, d: Disk) {
    forall acts :: ValidRun(Boot(lay, d), acts) ==> Atomic(lay, d, Exec(Boot(lay, d), acts))
  }

  /** Two calls test the same length before either takes the lock, and then both append. */
  lemma BothPass(s: State, i: nat, j: nat, a: int, b: int, v: Block)
    requires s.m.stage == Running && i < |s.g.ops| && j < |s.g.ops| && i != j && !LogWritePanics(s.m)
    requires Quiet(s.g.ops[i]) && Quiet(s.g.ops[j]) && |s.g.ops[i].logged + {a}| <= MAXOPBLOCKS
    requires |s.g.ops[j].logged + {b}| <= MAXOPBLOCKS
    requires Home(s.m.lay, a) && Home(s.m.lay, b) && a < |s.m.mem| && b < |s.m.mem| && a != b && a !in s.m.lh
    requires b !in s.m.lh && |v| == WORDS
    ensures Enabled(s, AModify(i, a, v)) && Enabled(Changed(s, i, a, v), AModify(j, b, v))
    ensures var s2 := Changed(Changed(s, i, a, v), j, b, v);
            && Enabled(s2, ATest(i, a)) && Enabled(Do(s2, ATest(i, a)), ATest(j, b))
            && Enabled(Do(Do(s2, ATest(i, a)), ATest(j, b)), AAppend(i, a))
            && Enabled(Do(Do(Do(s2, ATest(i, a)), ATest(j, b)), AAppend(i, a)), AAppend(j, b))
    ensures var s' := Do(Do(Do(Do(Changed(Changed(s, i, a, v), j, b, v), ATest(i, a)), ATest(j, b)), AAppend(i, a)),
              AAppend(j, b));
            && s'.m == s.m.(mem := s.m.mem[a := v][b := v], lh := s.m.lh + [a] + [b])
            && |s'.g.ops| == |s.g.ops| && s'.g.cut == s.g.cut
            && (forall x :: 0 <= x < |s.g.ops| && Quiet(s.g.ops[x]) ==> Quiet(s'.g.ops[x]))
  {
    FindAbsent(s.m.lh, a);
    FindAbsent(s.m.lh + [a], b);
  }

  ghost function Changed(s: State, i: nat, b: int, v: Block): State
    requires Enabled(s, AModify(i, b, v))
  {
    Do(s, AModify(i, b, v))
  }

  /** The log lists one block more than it has room for, and that block's new contents are v. */
  ghost predicate Overfull(lay: Layout, d: Disk, m: Machine, v: Block) {
    && m.lay == lay && m.lh == HomeBlocks(lay, lay.size) && |m.disk| == |m.mem| == |d| == lay.total
    && lay.size >= 2 && lay.start + lay.size < lay.total && HomeBlock(lay, lay.size - 1) < lay.total
    && m.disk[lay.start] == d[lay.start] == m.mem[lay.start] && m.mem[HomeBlock(lay, lay.size - 1)] == v
  }

  ghost predicate Small(lay: Layout, d: Disk) {
    Fresh(lay, d) && Roomy(lay) && 2 <= lay.size <= LOGSIZE
  }

  lemma SmallFacts(lay: Layout, d: Disk)
    requires Small(lay, d)
    ensures |d| == lay.total && lay.start + lay.size < lay.total && lay.start + 1 + lay.size <= lay.total
    ensures |d[lay.start]| == WORDS && d[lay.start][0] == 0 && |d[lay.start + lay.size]| == WORDS && GoodDisk(lay, d)
    ensures forall k :: 0 <= k < lay.size ==> HomeBlock(lay, k) < lay.total && Home(lay, HomeBlock(lay, k))
  {
  }

  lemma Overfill(lay: Layout, d: Disk, v: Block) returns (acts: seq<Action>)
    requires Small(lay, d) && |v| == WORDS
    ensures ValidRun(Boot(lay, d), acts)
    ensures var s := Exec(Boot(lay, d), acts);
            && Overfull(lay, d, s.m, v) && s.m.stage == Running && |s.g.ops| == 3 && s.m.outstanding == 3
            && s.g.cut == 0
            && forall x :: 0 <= x < 3 ==> Quiet(s.g.ops[x])
  {
    hide ValidRun, Exec, Do, Enabled, Boot, Fresh, Turn;
    SmallFacts(lay, d);
    var k, s0 := lay.size - 2, Boot(lay, d);
    var acts0 := FillLog(lay, d, k);
    var s := Exec(s0, acts0);
    NextFits(lay, k, k);
    NextFits(lay, k, k + 1);
    HeaderCached(lay, d, acts0);
    acts := PassTogether(s0, acts0, k % 3, (k + 1) % 3, HomeBlock(lay, k), HomeBlock(lay, k + 1), v);
  }

  lemma PassTogether(s0: State, acts0: seq<Action>, i: nat, j: nat, a: int, b: int, v: Block)
    returns (acts: seq<Action>)
    requires ValidRun(s0, acts0)
    requires var s := Exec(s0, acts0);
             && s.m.stage == Running && i < |s.g.ops| && j < |s.g.ops| && i != j && !LogWritePanics(s.m)
             && Quiet(s.g.ops[i]) && Quiet(s.g.ops[j]) && |s.g.ops[i].logged + {a}| <= MAXOPBLOCKS
             && |s.g.ops[j].logged + {b}| <= MAXOPBLOCKS
             && Home(s.m.lay, a) && Home(s.m.lay, b) && a < |s.m.mem| && b < |s.m.mem| && a != b && a !in s.m.lh
             && b !in s.m.lh && |v| == WORDS
    ensures ValidRun(s0, acts)
    ensures var s, s' := Exec(s0, acts0), Exec(s0, acts);
            && s'.m == s.m.(mem := s.m.mem[a := v][b := v], lh := s.m.lh + [a] + [b])
            && |s'.g.ops| == |s.g.ops| && s'.g.cut == s.g.cut
            && (forall x :: 0 <= x < |s.g.ops| && Quiet(s.g.ops[x]) ==> Quiet(s'.g.ops[x]))
  {
    hide ValidRun, Exec, Do, Enabled, Quiet;
    BothPass(Exec(s0, acts0), i, j, a, b, v);
    Extend(s0, acts0, AModify(i, a, v));
    Extend(s0, acts0 + [AModify(i, a, v)], AModify(j, b, v));
    var acts2 := acts0 + [AModify(i, a, v)] + [AModify(j, b, v)];
    Extend(s0, acts2, ATest(i, a));
    Extend(s0, acts2 + [ATest(i, a)], ATest(j, b));
    Extend(s0, acts2 + [ATest(i, a)] + [ATest(j, b)], AAppend(i, a));
    Extend(s0, acts2 + [ATest(i, a)] + [ATest(j, b)] + [AAppend(i, a)], AAppend(j, b));
    acts := acts2 + [ATest(i, a)] + [ATest(j, b)] + [AAppend(i, a)] + [AAppend(j, b)];
  }

  lemma HeaderCached(lay: Layout, d: Disk, acts: seq<Action>)
    requires Fresh(lay, d) && ValidRun(Boot(lay, d), acts)
    ensures var s := Exec(Boot(lay, d), acts);
            lay.start < |s.m.mem| == |s.m.disk| && s.m.mem[lay.start] == s.m.disk[lay.start]
  {
    RunSound(lay, d, acts);
  }

  /** All three calls end; the last one starts the commit. */
  lemma EndThree(lay: Layout, d: Disk, v: Block, acts: seq<Action>) returns (acts': seq<Action>)
    requires Small(lay, d) && ValidRun(Boot(lay, d), acts)
    requires var s := Exec(Boot(lay, d), acts);
             && Overfull(lay, d, s.m, v) && s.m.stage == Running && |s.g.ops| == 3 && s.m.outstanding == 3
             && s.g.cut == 0
             && forall x :: 0 <= x < 3 ==> Quiet(s.g.ops[x])
    ensures ValidRun(Boot(lay, d), acts')
    ensures var s := Exec(Boot(lay, d), acts');
            Overfull(lay, d, s.m, v) && s.m.stage == CommitCheck && s.m.committing && s.g.cut == 0
  {
    hide ValidRun, Exec, Boot, Small;
    var s0, e := Boot(lay, d), AEnd(0);
    Extend(s0, acts, e);
    Extend(s0, acts + [e], e);
    Extend(s0, acts + [e] + [e], e);
    acts' := acts + [e] + [e] + [e];
  }

  ghost predicate Writing(lay: Layout, d: Disk, s: State, v: Block, t: nat) {
    && Overfull(lay, d, s.m, v) && s.m.stage == WriteLog(t) && s.m.committing && s.g.cut == 0 && t <= lay.size
    && (t == lay.size ==> s.m.disk[lay.start + lay.size] == v)
  }

  lemma WritingReady(lay: Layout, d: Disk, m: Machine, v: Block)
    requires Small(lay, d) && Overfull(lay, d, m, v) && m.committing && (m.stage.WriteLog? || m.stage.CommitCheck?)
    ensures CommitReady(m)
  {
    SmallFacts(lay, d);
  }

  /** write_log copies one block after the other; the last one lands behind the log. */
  lemma {:induction false} WriteSlots(lay: Layout, d: Disk, v: Block, acts: seq<Action>, t: nat)
    returns (acts': seq<Action>)
    requires Small(lay, d) && ValidRun(Boot(lay, d), acts) && lay.start + lay.size < lay.total
    requires Writing(lay, d, Exec(Boot(lay, d), acts), v, t)
    ensures ValidRun(Boot(lay, d), acts') && Writing(lay, d, Exec(Boot(lay, d), acts'), v, lay.size)
    decreases lay.size - t
  {
    hide ValidRun, Exec, Boot, Small, CommitReady;
    if t == lay.size {
      acts' := acts;
    } else {
      var s := Exec(Boot(lay, d), acts);
      WritingReady(lay, d, s.m, v);
      Extend(Boot(lay, d), acts, ACommit);
      OneSlot(lay, d, s, v, t);
      acts' := WriteSlots(lay, d, v, acts + [ACommit], t + 1);
    }
  }

  lemma OneSlot(lay: Layout, d: Disk, s: State, v: Block, t: nat)
    requires Small(lay, d) && lay.start + lay.size < lay.total && Writing(lay, d, s, v, t) && t < lay.size
    requires CommitReady(s.m)
    ensures Writing(lay, d, Do(s, ACommit), v, t + 1)
  {
    SmallFacts(lay, d);
    var b := HomeBlock(lay, lay.size - 1);
    assert Home(lay, b) && s.m.lh[lay.size - 1] == b;
  }

  /** With room for at least one block but for fewer than LOGSIZE, there is a run after which a
      crash brings back a home block that no committed call has written. */
  lemma RaceSpoilsHome(lay: Layout, d: Disk) returns (acts: seq<Action>)
    requires Small(lay, d)
    ensures ValidRun(Boot(lay, d), acts) && !Atomic(lay, d, Exec(Boot(lay, d), acts))
  {
    hide ValidRun, Exec, Boot, Small, CommitReady, HomeBlocks;
    SmallFacts(lay, d);
    var b := lay.start + lay.size;
    var v := d[b][0 := d[b][0] + 1];
    assert v[0] != d[b][0];
    acts := Overfill(lay, d, v);
    acts := EndThree(lay, d, v, acts);
    var s := Exec(Boot(lay, d), acts);
    WritingReady(lay, d, s.m, v);
    Extend(Boot(lay, d), acts, ACommit);
    LogHasBlocks(lay);
    acts := WriteSlots(lay, d, v, acts + [ACommit], 0);
    SpoiledBlock(lay, d, Exec(Boot(lay, d), acts), v, b);
  }

  lemma LogHasBlocks(lay: Layout)
    requires lay.size >= 2
    ensures |HomeBlocks(lay, lay.size)| > 0
  {
  }

  lemma SpoiledBlock(lay: Layout, d: Disk, s: State, v: Block, b: int)
    requires Small(lay, d) && b == lay.start + lay.size < lay.total && Writing(lay, d, s, v, lay.size) && v != d[b]
    ensures !Atomic(lay, d, s)
  {
    assert Home(lay, b);
    assert s.g.cut == 0 ==> s.g.history[..s.g.cut] == [];
    assert GoodDisk(lay, s.m.disk) && HeadOk(lay, s.m.disk) ==>
      Head(lay, s.m.disk) == [] && RecoveredAt(lay, s.m.disk, b) == v;
  }

  /** The exact condition for crash atomicity.  The log that mkfs makes does not meet it. */
  lemma CrashSafeIffAmple(lay: Layout, d: Disk)
    requires Fresh(lay, d) && Roomy(lay)
    ensures CrashSafe(lay, d) <==> Ample(lay)
  {
    hide Atomic, ValidRun, Exec, Boot;
    if Ample(lay) {
      forall acts | ValidRun(Boot(lay, d), acts) ensures Atomic(lay, d, Exec(Boot(lay, d), acts)) {
        CrashAtomicity(lay, d, acts);
      }
    } else {
      FreshSize(lay, d);
      var acts := RaceSpoilsHome(lay, d);
    }
  }
}
