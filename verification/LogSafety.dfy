/** Safety of the log machine over every run: crash atomicity, group commit, reservation. */
module LogSafety {
  import opened Common
  import opened LogProtocol

  // ---- The invariant ----

  ghost predicate Shape(s: State) {
    var m := s.m;
    && Ample(m.lay) && (m.lay.size == 1 ==> NothingLogged(s))
    && GoodDisk(m.lay, m.disk) && GoodDisk(m.lay, m.mem) && GoodDisk(m.lay, s.g.init)
    && HeadOk(m.lay, m.disk)
    && (forall b :: InLog(m.lay, b) ==> m.mem[b] == m.disk[b])
    && m.outstanding == |s.g.ops|
    && (m.committing <==> m.stage.CommitCheck? || m.stage.WriteLog? || m.stage.Install?
                          || m.stage.Erase? || m.stage.CommitDone?)
  }

  /** A log of one block, the header, lets no call through log_write's test. */
  ghost predicate NothingLogged(s: State) {
    s.m.lh == [] && forall op :: op in s.g.ops ==> op.tested == None
  }

  function Ids(ops: seq<Op>): set<nat> {
    set op <- ops :: op.id
  }

  ghost predicate HistoryInv(lay: Layout, g: Ledger) {
    && g.cut <= |g.history|
    && ProperHistory(lay, g.history)
    && Open(g.history) == Ids(g.ops)
    && Open(g.history[..g.cut]) == {}
    && (forall i, j :: 0 <= i < j < |g.ops| ==> g.ops[i].id != g.ops[j].id)
  }

  /** A crash now would bring back exactly the writes before the cut. */
  ghost predicate DurableInv(s: State)
    requires Shape(s) && s.g.cut <= |s.g.history|
  {
    forall b :: Home(s.m.lay, b) ==>
      RecoveredAt(s.m.lay, s.m.disk, b) == ContentAt(s.g.init, s.g.history[..s.g.cut], b)
  }

  /** The buffer cache shows the latest contents. */
  ghost predicate Shows(lay: Layout, mem: Disk, init: Disk, h: seq<Event>)
    requires GoodDisk(lay, mem) && GoodDisk(lay, init)
  {
    forall b :: Home(lay, b) ==> mem[b] == ContentAt(init, h, b)
  }

  ghost predicate Latest(s: State)
    requires Shape(s)
  {
    Shows(s.m.lay, s.m.mem, s.g.init, s.g.history)
  }

  predicate IsPending(ops: seq<Op>, b: int) {
    exists i :: 0 <= i < |ops| && b in ops[i].pending
  }

  ghost predicate DirtyIn(s: State, bs: seq<int>)
    requires Shape(s)
  {
    forall b :: Home(s.m.lay, b) && s.m.mem[b] != s.m.disk[b] ==> b in bs || IsPending(s.g.ops, b)
  }

  ghost predicate OpsInv(lay: Layout, lh: seq<int>, ops: seq<Op>) {
    && |lh| + Unused(ops) <= LOGSIZE
    && (forall i :: 0 <= i < |ops| ==>
          && |ops[i].logged| <= MAXOPBLOCKS
          && (forall b :: b in ops[i].logged ==> b in lh)
          && (forall b :: b in ops[i].pending ==> Home(lay, b))
          && TestOk(ops[i]))
  }

  ghost predicate TestOk(op: Op) {
    op.tested.Some? ==> op.tested.value in op.pending && |op.logged + {op.tested.value}| <= MAXOPBLOCKS
  }

  ghost predicate CommittedAll(s: State) {
    s.g.ops == [] && s.g.cut == |s.g.history|
  }

  ghost predicate StageInv(s: State)
    requires Shape(s)
  {
    var m := s.m;
    match m.stage
    case Running =>
      && Head(m.lay, m.disk) == [] && ValidTargets(m.lay, m.lh) && |m.lh| < m.lay.size
      && Latest(s) && DirtyIn(s, m.lh) && OpsInv(m.lay, m.lh, s.g.ops)
      && (s.g.ops == [] ==> m.lh == [] && CommittedAll(s))
    case CommitCheck =>
      && Head(m.lay, m.disk) == [] && ValidTargets(m.lay, m.lh) && |m.lh| < m.lay.size
      && |m.lh| <= LOGSIZE && Latest(s) && DirtyIn(s, m.lh) && s.g.ops == []
    case WriteLog(t) =>
      && Head(m.lay, m.disk) == [] && ValidTargets(m.lay, m.lh) && |m.lh| < m.lay.size
      && |m.lh| <= LOGSIZE && Latest(s) && DirtyIn(s, m.lh) && s.g.ops == []
      && t <= |m.lh|
      && forall i :: 0 <= i < t ==> m.disk[Slot(m.lay, i)] == m.mem[m.lh[i]]
    case Install(t) =>
      && Head(m.lay, m.disk) == m.lh && t <= |m.lh| && Latest(s) && CommittedAll(s)
      && DirtyIn(s, m.lh)
      && (forall i :: 0 <= i < |m.lh| ==> m.disk[Slot(m.lay, i)] == m.mem[m.lh[i]])
      && (forall i :: 0 <= i < t ==> m.disk[m.lh[i]] == m.mem[m.lh[i]])
    case Erase =>
      && m.lh == [] && Latest(s) && CommittedAll(s) && DirtyIn(s, [])
    case CommitDone =>
      && Head(m.lay, m.disk) == [] && m.lh == [] && Latest(s) && CommittedAll(s) && DirtyIn(s, [])
    case ReadHead => m.mem == m.disk && CommittedAll(s)
    case RecInstall(t) =>
      && Head(m.lay, m.disk) == m.lh && t <= |m.lh| && m.mem == m.disk && CommittedAll(s)
      && forall i :: 0 <= i < t ==> m.disk[Slot(m.lay, i)] == m.disk[m.lh[i]]
    case RecErase =>
      && m.lh == [] && m.mem == m.disk && CommittedAll(s)
      && forall b :: Home(m.lay, b) ==> RecoveredAt(m.lay, m.disk, b) == m.disk[b]
  }

  ghost predicate Inv(s: State) {
    Shape(s) && HistoryInv(s.m.lay, s.g) && DurableInv(s) && StageInv(s)
  }

  // ---- Small facts ----

  lemma FindDistinct(bs: seq<int>, i: nat)
    requires i < |bs| && forall j, k :: 0 <= j < k < |bs| ==> bs[j] != bs[k]
    ensures Find(bs, bs[i]) == i
  {
    var k := Find(bs, bs[i]);
    assert forall j :: 0 <= j < k ==> bs[..k][j] == bs[j];
  }

  lemma FindAbsent(bs: seq<int>, b: int)
    ensures Find(bs, b) == |bs| <==> b !in bs
  {
    assert bs[..|bs|] == bs;
  }

  lemma {:induction false} UnusedBound(ops: seq<Op>)
    ensures Unused(ops) <= MAXOPBLOCKS * |ops|
  {
    if ops != [] { UnusedBound(ops[1..]); }
  }

  lemma {:induction false} UnusedNonneg(ops: seq<Op>)
    requires forall op :: op in ops ==> |op.logged| <= MAXOPBLOCKS
    ensures 0 <= Unused(ops)
  {
    if ops != [] { UnusedNonneg(ops[1..]); }
  }

  lemma {:induction false} UnusedAppend(ops: seq<Op>, op: Op)
    ensures Unused(ops + [op]) == Unused(ops) + MAXOPBLOCKS - |op.logged|
  {
    if ops == [] {
      assert ops + [op] == [op];
    } else {
      assert (ops + [op])[1..] == ops[1..] + [op];
      UnusedAppend(ops[1..], op);
    }
  }

  lemma {:induction false} UnusedUpdate(ops: seq<Op>, i: nat, op: Op)
    requires i < |ops|
    ensures Unused(ops[i := op]) == Unused(ops) + |ops[i].logged| - |op.logged|
  {
    if i > 0 {
      assert ops[i := op][1..] == ops[1..][i - 1 := op];
      UnusedUpdate(ops[1..], i - 1, op);
    } else {
      assert ops[i := op][1..] == ops[1..];
    }
  }

  lemma {:induction false} UnusedRemove(ops: seq<Op>, i: nat)
    requires i < |ops|
    ensures Unused(ops[..i] + ops[i + 1..]) == Unused(ops) - MAXOPBLOCKS + |ops[i].logged|
  {
    if i > 0 {
      assert (ops[..i] + ops[i + 1..])[1..] == ops[1..][..i - 1] + ops[1..][i..];
      UnusedRemove(ops[1..], i - 1);
    } else {
      assert ops[..i] + ops[i + 1..] == ops[1..];
    }
  }

  lemma IdsUpdate(ops: seq<Op>, i: nat, op: Op)
    requires i < |ops| && op.id == ops[i].id
    ensures Ids(ops[i := op]) == Ids(ops)
  {
    var ops' := ops[i := op];
    forall o | o in ops ensures o.id in Ids(ops') {
      var j :| 0 <= j < |ops| && ops[j] == o;
      assert ops'[j] in ops' && ops'[j].id == o.id;
    }
    assert ops[i] in ops;
  }

  lemma OpsRemove(ops: seq<Op>, i: nat)
    requires i < |ops| && forall j, k :: 0 <= j < k < |ops| ==> ops[j].id != ops[k].id
    ensures Ids(ops[..i] + ops[i + 1..]) == Ids(ops) - {ops[i].id}
    ensures forall b :: IsPending(ops, b) && b !in ops[i].pending ==> IsPending(ops[..i] + ops[i + 1..], b)
  {
    var ops' := ops[..i] + ops[i + 1..];
    forall o | o in ops && o != ops[i] ensures o in ops' {
      var j :| 0 <= j < |ops| && ops[j] == o;
      assert ops'[if j < i then j else j - 1] == o;
    }
    forall o | o in ops' ensures o in ops && o.id != ops[i].id {
      var j :| 0 <= j < |ops'| && ops'[j] == o;
      assert o == ops[if j < i then j else j + 1];
    }
    forall b | IsPending(ops, b) && b !in ops[i].pending ensures IsPending(ops', b) {
      var j :| 0 <= j < |ops| && b in ops[j].pending;
      assert ops'[if j < i then j else j - 1] == ops[j];
    }
  }

  /** Copying one logged block home does not change what recovery would produce. */
  lemma InstallOne(lay: Layout, d: Disk, t: nat)
    requires GoodDisk(lay, d) && HeadOk(lay, d) && t < |Head(lay, d)|
    ensures var d' := d[Head(lay, d)[t] := d[Slot(lay, t)]];
            && GoodDisk(lay, d') && HeadOk(lay, d') && Head(lay, d') == Head(lay, d)
            && (forall b :: InLog(lay, b) ==> d'[b] == d[b])
            && (forall b :: Home(lay, b) ==> RecoveredAt(lay, d', b) == RecoveredAt(lay, d, b))
  {
    var bs := Head(lay, d);
    var d' := d[bs[t] := d[Slot(lay, t)]];
    assert InLog(lay, lay.start) && InLog(lay, Slot(lay, t)) && Home(lay, bs[t]);
    assert d'[lay.start] == d[lay.start];
    FindDistinct(bs, t);
    forall b | Home(lay, b) ensures RecoveredAt(lay, d', b) == RecoveredAt(lay, d, b) {
      var i := Find(bs, b);
      if i < |bs| { assert InLog(lay, Slot(lay, i)); }
    }
  }

  /** Writing the header makes lh the list that recovery will install. */
  lemma HeaderWrite(lay: Layout, d: Disk, lh: seq<int>)
    requires GoodDisk(lay, d) && |lh| <= LOGSIZE && |lh| < lay.size && ValidTargets(lay, lh)
    ensures var d' := d[lay.start := PutHeader(d[lay.start], lh)];
            && GoodDisk(lay, d') && HeadOk(lay, d') && Head(lay, d') == lh
            && (forall b :: Home(lay, b) || b in lh ==> Home(lay, b) && d'[b] == d[b])
            && (forall i :: 0 <= i < |lh| ==> d'[Slot(lay, i)] == d[Slot(lay, i)])
  {
    var blk := PutHeader(d[lay.start], lh);
    assert ReadHeader(blk) == lh;
    assert InLog(lay, lay.start);
  }

  /** With the logged contents in their slots, the header write makes recovery produce mem. */
  lemma HeaderRecovers(lay: Layout, d: Disk, mem: Disk, lh: seq<int>, b: int)
    requires GoodDisk(lay, d) && GoodDisk(lay, mem) && |lh| <= LOGSIZE && |lh| < lay.size && ValidTargets(lay, lh)
    requires forall i :: 0 <= i < |lh| ==> d[Slot(lay, i)] == mem[lh[i]]
    requires Home(lay, b) && (b !in lh ==> d[b] == mem[b])
    ensures var d' := d[lay.start := PutHeader(d[lay.start], lh)];
            GoodDisk(lay, d') && HeadOk(lay, d') && RecoveredAt(lay, d', b) == mem[b]
  {
    hide PutHeader, HeadOk, Head;
    HeaderWrite(lay, d, lh);
    FindAbsent(lh, b);
  }

  lemma ProperAppend(lay: Layout, h: seq<Event>, e: Event)
    requires ProperHistory(lay, h)
    requires match e
             case Begin(id) => forall j :: 0 <= j < |h| ==> h[j].id != id
             case Write(id, b, v) => id in Open(h) && Home(lay, b) && |v| == WORDS
             case End(id) => id in Open(h)
    ensures ProperHistory(lay, h + [e])
    ensures (h + [e])[..|h|] == h
  {
    var h' := h + [e];
    assert h'[..|h|] == h;
    forall k | 0 <= k < |h'| ensures ProperEvent(lay, h', k) {
      if k < |h| {
        assert ProperEvent(lay, h, k);
        assert h'[..k] == h[..k] && h'[k] == h[k];
      } else {
        assert h'[..k] == h;
      }
    }
  }

  lemma ProperPrefix(lay: Layout, h: seq<Event>, c: nat)
    requires ProperHistory(lay, h) && c <= |h|
    ensures ProperHistory(lay, h[..c])
  {
    var p := h[..c];
    forall k | 0 <= k < |p| ensures ProperEvent(lay, p, k) {
      assert ProperEvent(lay, h, k);
      assert p[..k] == h[..k] && p[k] == h[k];
    }
  }

  // ---- One lemma per action ----

  /** Events after the cut do not disturb what is already durable. */
  lemma KeepDurable(s: State, s': State)
    requires Shape(s) && Shape(s') && s.g.cut <= |s.g.history| && DurableInv(s)
    requires s'.m.lay == s.m.lay && s'.m.disk == s.m.disk && s'.g.init == s.g.init && s'.g.cut == s.g.cut
    requires s.g.history <= s'.g.history
    ensures DurableInv(s')
  {
    assert s'.g.history[..s.g.cut] == s.g.history[..s.g.cut];
  }

  lemma GrowHistory(s: State, s': State, e: Event)
    requires HistoryInv(s.m.lay, s.g) && s'.m.lay == s.m.lay && s'.g.cut == s.g.cut
    requires s'.g.history == s.g.history + [e]
    requires Ids(s'.g.ops) == match e
                              case Begin(id) => Ids(s.g.ops) + {id}
                              case Write(_, _, _) => Ids(s.g.ops)
                              case End(id) => Ids(s.g.ops) - {id}
    requires match e
             case Begin(id) => forall j :: 0 <= j < |s.g.history| ==> s.g.history[j].id != id
             case Write(id, b, v) => id in Ids(s.g.ops) && Home(s.m.lay, b) && |v| == WORDS
             case End(id) => id in Ids(s.g.ops)
    requires forall i, j :: 0 <= i < j < |s'.g.ops| ==> s'.g.ops[i].id != s'.g.ops[j].id
    ensures HistoryInv(s'.m.lay, s'.g) && s.g.history <= s'.g.history
  {
    ProperAppend(s.m.lay, s.g.history, e);
    assert s'.g.history[..s.g.cut] == s.g.history[..s.g.cut];
  }

  lemma InvBegin(s: State, id: nat)
    requires Inv(s) && Enabled(s, ABegin(id))
    ensures Inv(Do(s, ABegin(id)))
  {
    hide ProperHistory, Unused, RecoveredAt, HeadOk;
    var s' := Do(s, ABegin(id));
    var ops, ops' := s.g.ops, s'.g.ops;
    assert ops' == ops + [Op(id, {}, {}, None)];
    assert Ids(ops') == Ids(ops) + {id};
    forall i, j | 0 <= i < j < |ops'| ensures ops'[i].id != ops'[j].id {
      if j == |ops| {
        assert ops[i] in ops;
        OpenWasBegun(s.g.history, ops[i].id);
      }
    }
    GrowHistory(s, s', Begin(id));
    KeepDurable(s, s');
    UnusedAppend(ops, Op(id, {}, {}, None));
    UnusedBound(ops);
    forall b | IsPending(ops, b) ensures IsPending(ops', b) {
      var i :| 0 <= i < |ops| && b in ops[i].pending;
      assert b in ops'[i].pending;
    }
    assert Latest(s') && DirtyIn(s', s'.m.lh);
  }

  lemma {:induction false} OpenWasBegun(h: seq<Event>, id: nat)
    requires id in Open(h)
    ensures exists k :: 0 <= k < |h| && h[k].id == id
  {
    var n := |h| - 1;
    if h[n].id != id {
      OpenWasBegun(h[..n], id);
      var k :| 0 <= k < n && h[..n][k].id == id;
      assert h[k].id == id;
    }
  }

  lemma InvModify(s: State, i: nat, b: int, v: Block)
    requires Inv(s) && Enabled(s, AModify(i, b, v))
    ensures Inv(Do(s, AModify(i, b, v)))
  {
    hide ProperHistory, Open, Unused, RecoveredAt, HeadOk;
    var s' := Do(s, AModify(i, b, v));
    var ops, ops' := s.g.ops, s'.g.ops;
    assert ops[i] in ops;
    assert forall j :: 0 <= j < |ops| ==> ops'[j].id == ops[j].id;
    IdsUpdate(ops, i, ops'[i]);
    GrowHistory(s, s', Write(ops[i].id, b, v));
    KeepDurable(s, s');
    UnusedUpdate(ops, i, ops'[i]);
    forall x | Home(s.m.lay, x) && s'.m.mem[x] != s'.m.disk[x]
      ensures x in s'.m.lh || IsPending(ops', x)
    {
      if x == b { assert b in ops'[i].pending; }
      else if IsPending(ops, x) {
        var j :| 0 <= j < |ops| && x in ops[j].pending;
        assert x in ops'[j].pending;
      }
    }
    assert Latest(s');
  }

  lemma InvTest(s: State, i: nat, b: int)
    requires Inv(s) && Enabled(s, ATest(i, b))
    ensures Inv(Do(s, ATest(i, b)))
  {
    hide ProperHistory, ContentAt, Open, HeadOk, RecoveredAt, Unused;
    var s' := Do(s, ATest(i, b));
    var ops, ops' := s.g.ops, s'.g.ops;
    UnusedUpdate(ops, i, ops'[i]);
    assert forall j :: 0 <= j < |ops| ==>
      ops'[j].id == ops[j].id && ops'[j].pending == ops[j].pending && ops'[j].logged == ops[j].logged;
    IdsUpdate(ops, i, ops'[i]);
    SamePending(ops, ops');
    assert Latest(s');
  }

  lemma SamePending(ops: seq<Op>, ops': seq<Op>)
    requires |ops'| == |ops| && forall j :: 0 <= j < |ops| ==> ops'[j].pending == ops[j].pending
    ensures forall b :: IsPending(ops', b) == IsPending(ops, b)
  {
    forall b ensures IsPending(ops', b) == IsPending(ops, b) {
      if IsPending(ops, b) { var j :| 0 <= j < |ops| && b in ops[j].pending; assert b in ops'[j].pending; }
    }
  }

  function Appended(lh: seq<int>, b: int): seq<int> {
    if Find(lh, b) == |lh| then lh + [b] else lh
  }

  function AfterAppend(ops: seq<Op>, i: nat, b: int): seq<Op>
    requires i < |ops|
  {
    ops[i := Op(ops[i].id, ops[i].pending - {b}, ops[i].logged + {b}, None)]
  }

  /** Listing a block within its call's budget keeps the reservation, whatever the test said. */
  lemma AppendOps(lay: Layout, lh: seq<int>, ops: seq<Op>, i: nat, b: int)
    requires OpsInv(lay, lh, ops) && ValidTargets(lay, lh) && i < |ops| && ops[i].tested == Some(b)
    ensures var lh', ops' := Appended(lh, b), AfterAppend(ops, i, b);
            OpsInv(lay, lh', ops') && ValidTargets(lay, lh') && |lh'| <= LOGSIZE && lh <= lh' && b in lh'
  {
    hide Unused, Find;
    var lh', ops' := Appended(lh, b), AfterAppend(ops, i, b);
    FindAbsent(lh, b);
    assert TestOk(ops[i]);
    UnusedUpdate(ops, i, ops'[i]);
    if b !in lh {
      assert b !in ops[i].logged;
      assert |ops'[i].logged| == |ops[i].logged| + 1;
    } else if b in ops[i].logged {
      assert ops'[i].logged == ops[i].logged;
    }
    assert forall op :: op in ops' ==> |op.logged| <= MAXOPBLOCKS;
    UnusedNonneg(ops');
  }

  lemma AppendPending(ops: seq<Op>, i: nat, b: int, x: int)
    requires i < |ops| && x != b && IsPending(ops, x)
    ensures IsPending(AfterAppend(ops, i, b), x)
  {
    var j :| 0 <= j < |ops| && x in ops[j].pending;
    assert x in AfterAppend(ops, i, b)[j].pending;
  }

  lemma InvAppend(s: State, i: nat, b: int)
    requires Inv(s) && Enabled(s, AAppend(i, b))
    ensures Inv(Do(s, AAppend(i, b)))
  {
    hide ProperHistory, ContentAt, Open, HeadOk, RecoveredAt, OpsInv, Find, ValidTargets;
    var s' := Do(s, AAppend(i, b));
    var ops, ops' := s.g.ops, s'.g.ops;
    AppendOps(s.m.lay, s.m.lh, ops, i, b);
    assert ops[i] in ops;
    assert forall j :: 0 <= j < |ops| ==> ops'[j].id == ops[j].id;
    IdsUpdate(ops, i, ops'[i]);
    forall x | Home(s.m.lay, x) && s'.m.mem[x] != s'.m.disk[x]
      ensures x in s'.m.lh || IsPending(ops', x)
    {
      if x != b && IsPending(ops, x) { AppendPending(ops, i, b, x); }
    }
    assert Latest(s');
  }

  /** What both ways of ending a call share. */
  lemma EndFacts(s: State, i: nat)
    requires Inv(s) && Enabled(s, AEnd(i))
    ensures var s' := Do(s, AEnd(i));
            && Shape(s') && HistoryInv(s'.m.lay, s'.g) && DurableInv(s')
            && Latest(s') && DirtyIn(s', s'.m.lh) && |s'.g.ops| == |s.g.ops| - 1
  {
    var s' := Do(s, AEnd(i));
    var ops, ops' := s.g.ops, s'.g.ops;
    assert ops[i] in ops;
    OpsRemove(ops, i);
    GrowHistory(s, s', End(ops[i].id));
    KeepDurable(s, s');
  }

  lemma InvEnd(s: State, i: nat)
    requires Inv(s) && Enabled(s, AEnd(i))
    ensures Inv(Do(s, AEnd(i)))
  {
    hide ProperHistory, ContentAt, Open, Unused, RecoveredAt, HeadOk;
    EndFacts(s, i);
    var s' := Do(s, AEnd(i));
    var ops, ops' := s.g.ops, s'.g.ops;
    assert forall op :: op in ops' ==> op in ops;
    UnusedRemove(ops, i);
    UnusedNonneg(ops');
  }

  lemma InvCrash(s: State)
    requires Inv(s)
    ensures Inv(Do(s, ACrash))
  {
    ProperPrefix(s.m.lay, s.g.history, s.g.cut);
    assert s.g.history[..s.g.cut][..s.g.cut] == s.g.history[..s.g.cut];
    assert |s.g.history[..s.g.cut]| == s.g.cut;
  }

  lemma WholePrefix(h: seq<Event>)
    ensures h[..|h|] == h
  {
  }

  /** write_log, one block: the header still says 0, so recovery sees no change. */
  lemma InvWriteLogBlock(s: State)
    requires Inv(s) && s.m.stage.WriteLog? && s.m.stage.tail < |s.m.lh|
    ensures CommitReady(s.m) && Inv(Do(s, ACommit))
  {
    hide ProperHistory, ContentAt, Open, Unused;
    var s' := Do(s, ACommit);
    var t, start := s.m.stage.tail, s.m.lay.start;
    assert s'.m.disk[start] == s.m.disk[start];
    assert InLog(s.m.lay, Slot(s.m.lay, t)) && InLog(s.m.lay, start);
    assert Home(s.m.lay, s.m.lh[t]);
    assert Latest(s') && DirtyIn(s', s'.m.lh);
  }

  lemma WriteHeadEffect(s: State)
    requires Inv(s) && s.m.stage.WriteLog? && s.m.stage.tail == |s.m.lh|
    ensures CommitReady(s.m)
    ensures var lay, m := s.m.lay, s.m;
            var d' := m.disk[lay.start := PutHeader(m.disk[lay.start], m.lh)];
            && m.mem[lay.start] == m.disk[lay.start]
            && Do(s, ACommit) == State(m.(disk := d', mem := m.mem[lay.start := d'[lay.start]], stage := Install(0)),
                                       s.g.(cut := |s.g.history|))
  {
    assert InLog(s.m.lay, s.m.lay.start);
  }

  /** The header write: the transaction becomes durable in one block write. */
  lemma InvWriteHead(s: State)
    requires Inv(s) && s.m.stage.WriteLog? && s.m.stage.tail == |s.m.lh|
    ensures CommitReady(s.m) && Inv(Do(s, ACommit))
  {
    hide Do, CommitReady, ProperHistory, ContentAt, Open, PutHeader, HeadOk, Head, RecoveredAt, Find;
    WriteHeadEffect(s);
    var s' := Do(s, ACommit);
    var lay := s.m.lay;
    assert InLog(lay, lay.start);
    HeaderWrite(lay, s.m.disk, s.m.lh);
    WholePrefix(s'.g.history);
    assert forall i :: 0 <= i < |s.m.lh| ==> Home(lay, s.m.lh[i]);
    assert Shape(s') && Latest(s') && DirtyIn(s', s'.m.lh);
    forall b | Home(lay, b)
      ensures RecoveredAt(lay, s'.m.disk, b) == ContentAt(s.g.init, s.g.history, b)
    {
      HeaderRecovers(lay, s.m.disk, s.m.mem, s.m.lh, b);
    }
  }

  lemma InstallEffect(s: State)
    requires Inv(s) && s.m.stage.Install? && s.m.stage.tail < |s.m.lh|
    ensures CommitReady(s.m)
    ensures var m, t := s.m, s.m.stage.tail;
            && Home(m.lay, m.lh[t]) && m.mem[m.lh[t]] == m.disk[Slot(m.lay, t)]
            && Do(s, ACommit) == State(m.(disk := m.disk[m.lh[t] := m.mem[m.lh[t]]], stage := Install(t + 1)), s.g)
  {
    var m, t := s.m, s.m.stage.tail;
    assert InLog(m.lay, Slot(m.lay, t)) && InLog(m.lay, m.lay.start) && Home(m.lay, m.lh[t]);
    assert m.mem[m.lh[t] := m.mem[m.lh[t]]] == m.mem;
  }

  /** install_trans, one block: recovery would write the very same contents. */
  lemma InvInstallBlock(s: State)
    requires Inv(s) && s.m.stage.Install? && s.m.stage.tail < |s.m.lh|
    ensures CommitReady(s.m) && Inv(Do(s, ACommit))
  {
    hide Do, CommitReady, HistoryInv, Shows, Find, RecoveredAt, HeadOk, Head, IsPending, ValidTargets;
    InstallEffect(s);
    var s' := Do(s, ACommit);
    var t, lay := s.m.stage.tail, s.m.lay;
    InstallOne(lay, s.m.disk, t);
    assert forall i :: 0 <= i < |s.m.lh| ==> InLog(lay, Slot(lay, i));
    assert Latest(s') && DirtyIn(s', s.m.lh);
  }

  lemma InvErase(s: State)
    requires Inv(s) && s.m.stage.Erase?
    ensures CommitReady(s.m) && Inv(Do(s, ACommit))
  {
    hide ProperHistory, ContentAt, Open, Unused;
    var s' := Do(s, ACommit);
    assert InLog(s.m.lay, s.m.lay.start);
    WholePrefix(s.g.history);
    assert Latest(s') && DirtyIn(s', []);
  }

  lemma InvCommitQuiet(s: State)
    requires Inv(s) && CommitReady(s.m)
    requires s.m.stage.CommitCheck? || s.m.stage.CommitDone?
             || (s.m.stage.Install? && s.m.stage.tail == |s.m.lh|)
    ensures Inv(Do(s, ACommit))
  {
    var s' := Do(s, ACommit);
    WholePrefix(s.g.history);
    assert Latest(s');
    if s.m.stage.CommitDone? {
      assert Unused(s.g.ops) == 0;
    }
  }

  lemma InvCommit(s: State)
    requires Inv(s) && CommitReady(s.m)
    ensures Inv(Do(s, ACommit))
  {
    match s.m.stage
    case WriteLog(t) => if t < |s.m.lh| { InvWriteLogBlock(s); } else { InvWriteHead(s); }
    case Install(t) => if t < |s.m.lh| { InvInstallBlock(s); } else { InvCommitQuiet(s); }
    case Erase => InvErase(s);
    case CommitCheck => InvCommitQuiet(s);
    case CommitDone => InvCommitQuiet(s);
    case _ => assert false;
  }

  /** Recovery repeats install_trans; a crash inside it changes nothing either. */
  lemma InvRecInstallBlock(s: State)
    requires Inv(s) && s.m.stage.RecInstall? && s.m.stage.tail < |s.m.lh|
    ensures RecoverReady(s.m) && Inv(Do(s, ARecover))
  {
    hide ProperHistory, ContentAt, Open, Unused, Find, RecoveredAt;
    var s' := Do(s, ARecover);
    var t, lay := s.m.stage.tail, s.m.lay;
    InstallOne(lay, s.m.disk, t);
    assert InLog(lay, Slot(lay, t)) && Home(lay, s.m.lh[t]);
    assert forall i :: 0 <= i < |s.m.lh| ==> InLog(lay, Slot(lay, i));
  }

  lemma InvRecover(s: State)
    requires Inv(s) && RecoverReady(s.m)
    ensures Inv(Do(s, ARecover))
  {
    var lay := s.m.lay;
    var s' := Do(s, ARecover);
    WholePrefix(s.g.history);
    assert InLog(lay, lay.start);
    match s.m.stage
    case RecInstall(t) =>
      if t < |s.m.lh| { InvRecInstallBlock(s); }
    case RecErase =>
      assert Head(lay, s'.m.disk) == [];
      assert Unused(s.g.ops) == 0;
      assert Latest(s') && DirtyIn(s', []);
    case ReadHead =>
    case _ => assert false;
  }

  lemma InvStep(s: State, a: Action)
    requires Inv(s) && Enabled(s, a)
    ensures Inv(Do(s, a))
  {
    match a
    case ABegin(id) => InvBegin(s, id);
    case AModify(i, b, v) => InvModify(s, i, b, v);
    case ATest(i, b) => InvTest(s, i, b);
    case AAppend(i, b) => InvAppend(s, i, b);
    case AEnd(i) => InvEnd(s, i);
    case ACommit => InvCommit(s);
    case ARecover => InvRecover(s);
    case ACrash => InvCrash(s);
  }

  lemma {:induction false} RunInv(lay: Layout, d: Disk, acts: seq<Action>)
    requires Fresh(lay, d) && Ample(lay) && ValidRun(Boot(lay, d), acts)
    ensures Inv(Exec(Boot(lay, d), acts))
    decreases |acts|
  {
    if acts != [] {
      RunInv(lay, d, acts[..|acts| - 1]);
      InvStep(Exec(Boot(lay, d), acts[..|acts| - 1]), acts[|acts| - 1]);
    }
  }
}
