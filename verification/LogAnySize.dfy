/** What holds of the log in every run whatever its size: who is in progress, how many blocks are
    listed, and which blocks differ from the disk.  It says nothing of the contents of blocks, which
    a log that is too small may spoil. */
module LogAnySize {
  import opened Common
  import opened LogProtocol
  import opened LogSafety

  ghost predicate Sizes(s: State) {
    var lay := s.m.lay;
    && GoodDisk(lay, s.m.disk) && GoodDisk(lay, s.m.mem) && GoodDisk(lay, s.g.init)
    && lay.start + 1 + LOGSIZE <= lay.total
    && s.m.mem[lay.start] == s.m.disk[lay.start]
  }

  /** The header on disk lists at most LOGSIZE home blocks, all different. */
  ghost predicate HeaderSound(lay: Layout, blk: Block) {
    |blk| == WORDS && 0 <= blk[0] <= LOGSIZE && ValidTargets(lay, blk[1..1 + blk[0]])
  }

  ghost predicate Dirty(m: Machine, b: int)
    requires |m.mem| == |m.disk|
  {
    0 <= b < |m.mem| && Home(m.lay, b) && m.mem[b] != m.disk[b]
  }

  ghost predicate Listed(s: State, bs: seq<int>)
    requires |s.m.mem| == |s.m.disk|
  {
    forall b :: Dirty(s.m, b) ==> b in bs || IsPending(s.g.ops, b)
  }

  ghost predicate StageSound(s: State)
    requires Sizes(s)
  {
    var m := s.m;
    && ValidTargets(m.lay, m.lh) && |m.lh| <= LOGSIZE
    && (m.stage != Running ==> s.g.ops == [])
    && (m.committing <==>
          m.stage.CommitCheck? || m.stage.WriteLog? || m.stage.Install? || m.stage.Erase? || m.stage.CommitDone?)
    && match m.stage
       case Running => Listed(s, m.lh) && OpsInv(m.lay, m.lh, s.g.ops) && (s.g.ops == [] ==> m.lh == [])
       case CommitCheck => Listed(s, m.lh)
       case WriteLog(t) => Listed(s, m.lh) && t <= |m.lh|
       case Install(t) => t <= |m.lh| && Listed(s, m.lh[t..])
       case Erase => m.lh == [] && Listed(s, [])
       case CommitDone => m.lh == [] && Listed(s, [])
       case ReadHead => m.mem == m.disk && m.lh == []
       case RecInstall(t) => m.mem == m.disk && t <= |m.lh|
       case RecErase => m.lh == [] && m.mem == m.disk
  }

  ghost predicate Sound(s: State) {
    && Sizes(s) && HeaderSound(s.m.lay, s.m.disk[s.m.lay.start]) && HistoryInv(s.m.lay, s.g)
    && s.m.outstanding == |s.g.ops| && StageSound(s)
  }

  lemma SoundBegin(s: State, id: nat)
    requires Sound(s) && Enabled(s, ABegin(id))
    ensures Sound(Do(s, ABegin(id)))
  {
    hide ProperHistory, Unused, ValidTargets, HeaderSound;
    var s' := Do(s, ABegin(id));
    var ops, ops' := s.g.ops, s'.g.ops;
    assert ops' == ops + [Op(id, {}, {}, None)];
    assert Ids(ops') == Ids(ops) + {id};
    forall i, j | 0 <= i < j < |ops'| ensures ops'[i].id != ops'[j].id {
      if j == |ops| {
        assert ops[i] in ops;
        OpenWasBegun(s.g.history, ops[i].id);
      }
    }
    GrowHistory(s, s', Begin(id));
    UnusedAppend(ops, Op(id, {}, {}, None));
    UnusedBound(ops);
    forall b | Dirty(s'.m, b) ensures b in s'.m.lh || IsPending(ops', b) {
      assert Dirty(s.m, b);
      if IsPending(ops, b) {
        var i :| 0 <= i < |ops| && b in ops[i].pending;
        assert b in ops'[i].pending;
      }
    }
  }

  lemma SoundModify(s: State, i: nat, b: int, v: Block)
    requires Sound(s) && Enabled(s, AModify(i, b, v))
    ensures Sound(Do(s, AModify(i, b, v)))
  {
    hide ProperHistory, Open, Unused, ValidTargets, HeaderSound;
    var s' := Do(s, AModify(i, b, v));
    var ops, ops' := s.g.ops, s'.g.ops;
    assert ops[i] in ops && InLog(s.m.lay, s.m.lay.start);
    assert forall j :: 0 <= j < |ops| ==> ops'[j].id == ops[j].id;
    IdsUpdate(ops, i, ops'[i]);
    GrowHistory(s, s', Write(ops[i].id, b, v));
    UnusedUpdate(ops, i, ops'[i]);
    forall x | Dirty(s'.m, x) ensures x in s'.m.lh || IsPending(ops', x) {
      if x == b {
        assert b in ops'[i].pending;
      } else {
        assert Dirty(s.m, x);
        if IsPending(ops, x) {
          var j :| 0 <= j < |ops| && x in ops[j].pending;
          assert x in ops'[j].pending;
        }
      }
    }
  }

  lemma SoundTest(s: State, i: nat, b: int)
    requires Sound(s) && Enabled(s, ATest(i, b))
    ensures Sound(Do(s, ATest(i, b)))
  {
    hide ProperHistory, Open, Unused, ValidTargets, HeaderSound;
    var s' := Do(s, ATest(i, b));
    var ops, ops' := s.g.ops, s'.g.ops;
    UnusedUpdate(ops, i, ops'[i]);
    assert forall j :: 0 <= j < |ops| ==>
      ops'[j].id == ops[j].id && ops'[j].pending == ops[j].pending && ops'[j].logged == ops[j].logged;
    IdsUpdate(ops, i, ops'[i]);
    SamePending(ops, ops');
    assert forall x :: Dirty(s'.m, x) == Dirty(s.m, x);
  }

  lemma SoundAppend(s: State, i: nat, b: int)
    requires Sound(s) && Enabled(s, AAppend(i, b))
    ensures Sound(Do(s, AAppend(i, b)))
  {
    hide ProperHistory, Open, OpsInv, ValidTargets, Find, HeaderSound;
    var s' := Do(s, AAppend(i, b));
    var ops, ops' := s.g.ops, s'.g.ops;
    AppendOps(s.m.lay, s.m.lh, ops, i, b);
    assert forall j :: 0 <= j < |ops| ==> ops'[j].id == ops[j].id;
    IdsUpdate(ops, i, ops'[i]);
    forall x | Dirty(s'.m, x) ensures x in s'.m.lh || IsPending(ops', x) {
      assert Dirty(s.m, x);
      if x != b && IsPending(ops, x) { AppendPending(ops, i, b, x); }
    }
  }

  lemma RemoveOps(lay: Layout, lh: seq<int>, ops: seq<Op>, i: nat)
    requires OpsInv(lay, lh, ops) && i < |ops|
    ensures OpsInv(lay, lh, ops[..i] + ops[i + 1..])
  {
    hide Unused, TestOk;
    var ops' := ops[..i] + ops[i + 1..];
    UnusedRemove(ops, i);
    forall j | 0 <= j < |ops'| ensures exists k :: 0 <= k < |ops| && ops'[j] == ops[k] {
      assert ops'[j] == ops[if j < i then j else j + 1];
    }
  }

  lemma SoundEnd(s: State, i: nat)
    requires Sound(s) && Enabled(s, AEnd(i))
    ensures Sound(Do(s, AEnd(i)))
  {
    hide ProperHistory, Open, OpsInv, ValidTargets, HeaderSound;
    var s' := Do(s, AEnd(i));
    var ops, ops' := s.g.ops, s'.g.ops;
    assert ops[i] in ops;
    OpsRemove(ops, i);
    RemoveOps(s.m.lay, s.m.lh, ops, i);
    GrowHistory(s, s', End(ops[i].id));
    forall x | Dirty(s'.m, x) ensures x in s'.m.lh || IsPending(ops', x) { assert Dirty(s.m, x); }
  }

  lemma SoundCrash(s: State)
    requires Sound(s)
    ensures Sound(Do(s, ACrash))
  {
    hide ValidTargets, HeaderSound;
    ProperPrefix(s.m.lay, s.g.history, s.g.cut);
    assert s.g.history[..s.g.cut][..s.g.cut] == s.g.history[..s.g.cut];
    assert |s.g.history[..s.g.cut]| == s.g.cut;
    assert ValidTargets(s.m.lay, []) by { NoTargets(s.m.lay); }
  }

  lemma NoTargets(lay: Layout)
    ensures ValidTargets(lay, [])
  {
  }

  lemma PutHeaderSound(lay: Layout, blk: Block, lh: seq<int>)
    requires |blk| == WORDS && |lh| <= LOGSIZE && ValidTargets(lay, lh)
    ensures HeaderSound(lay, PutHeader(blk, lh))
  {
    var r := PutHeader(blk, lh);
    assert r[1..1 + r[0]] == lh;
  }

  lemma SoundCommit(s: State)
    requires Sound(s) && CommitReady(s.m)
    ensures Sound(Do(s, ACommit))
  {
    hide ProperHistory, ValidTargets, HeaderSound, PutHeader;
    var s' := Do(s, ACommit);
    var lay := s.m.lay;
    NoTargets(lay);
    WholePrefix(s.g.history);
    assert InLog(lay, lay.start);
    assert forall i :: 0 <= i < |s.m.lh| ==> Home(lay, s.m.lh[i]) by { HomeTargets(lay, s.m.lh); }
    if s.m.stage.WriteLog? || s.m.stage.Erase? { PutHeaderSound(lay, s.m.mem[lay.start], s.m.lh); }
    assert HistoryInv(lay, s'.g) by { CommitHistory(s); }
    CommitListed(s);
    if s.m.stage.CommitDone? { assert Unused(s.g.ops) == 0; }
  }

  lemma HomeTargets(lay: Layout, lh: seq<int>)
    requires ValidTargets(lay, lh)
    ensures forall i :: 0 <= i < |lh| ==> Home(lay, lh[i])
  {
  }

  lemma CommitHistory(s: State)
    requires Sound(s) && CommitReady(s.m)
    ensures HistoryInv(s.m.lay, Do(s, ACommit).g)
  {
    hide ProperHistory, ValidTargets, HeaderSound;
    WholePrefix(s.g.history);
  }

  /** A commit step leaves no block different from the disk that was not listed. */
  lemma CommitListed(s: State)
    requires Sound(s) && CommitReady(s.m)
    ensures var s' := Do(s, ACommit);
            && |s'.m.mem| == |s'.m.disk|
            && match s'.m.stage
               case Running => Listed(s', [])
               case WriteLog(t) => Listed(s', s'.m.lh)
               case Install(t) => t <= |s'.m.lh| && Listed(s', s'.m.lh[t..])
               case _ => Listed(s', [])
  {
    hide ProperHistory, ValidTargets, HeaderSound, PutHeader, HistoryInv;
    var s', m := Do(s, ACommit), s.m;
    assert forall b :: !IsPending(s.g.ops, b);
    forall x | Dirty(s'.m, x)
      ensures (s'.m.stage.WriteLog? && x in m.lh) ||
                (s'.m.stage.Install? && s'.m.stage.tail <= |m.lh| && x in m.lh[s'.m.stage.tail..])
    {
      assert Dirty(m, x);
      match m.stage
      case WriteLog(t) => if t >= |m.lh| { assert m.lh[0..] == m.lh; }
      case Install(t) => if t < |m.lh| { assert m.lh[t..] == [m.lh[t]] + m.lh[t + 1..]; }
      case _ =>
    }
  }

  lemma SoundRecover(s: State)
    requires Sound(s) && RecoverReady(s.m)
    ensures Sound(Do(s, ARecover))
  {
    hide ProperHistory, PutHeader;
    var s' := Do(s, ARecover);
    var lay := s.m.lay;
    assert InLog(lay, lay.start);
    if s.m.stage.RecErase? {
      PutHeaderSound(lay, s.m.mem[lay.start], s.m.lh);
      assert Unused(s.g.ops) == 0;
    }
    assert forall x :: !Dirty(s'.m, x);
  }

  lemma SoundStep(s: State, a: Action)
    requires Sound(s) && Enabled(s, a)
    ensures Sound(Do(s, a))
  {
    hide Sound, Do;
    match a
    case ABegin(id) => SoundBegin(s, id);
    case AModify(i, b, v) => SoundModify(s, i, b, v);
    case ATest(i, b) => SoundTest(s, i, b);
    case AAppend(i, b) => SoundAppend(s, i, b);
    case AEnd(i) => SoundEnd(s, i);
    case ACommit => SoundCommit(s);
    case ARecover => SoundRecover(s);
    case ACrash => SoundCrash(s);
  }

  lemma {:induction false} RunSound(lay: Layout, d: Disk, acts: seq<Action>)
    requires Fresh(lay, d) && ValidRun(Boot(lay, d), acts)
    ensures Sound(Exec(Boot(lay, d), acts)) && Exec(Boot(lay, d), acts).m.lay == lay
    ensures Exec(Boot(lay, d), acts).g.init == d
    decreases |acts|
  {
    hide Enabled, Do;
    if acts != [] {
      RunSound(lay, d, acts[..|acts| - 1]);
      SoundStep(Exec(Boot(lay, d), acts[..|acts| - 1]), acts[|acts| - 1]);
      StepKeepsLayout(Exec(Boot(lay, d), acts[..|acts| - 1]), acts[|acts| - 1]);
    }
  }

  lemma StepKeepsLayout(s: State, a: Action)
    requires Enabled(s, a)
    ensures Do(s, a).m.lay == s.m.lay && Do(s, a).g.init == s.g.init
  {
  }
}
