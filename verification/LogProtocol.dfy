/** The write-ahead log of log.c as a machine of atomic steps.

    One step is one critical section under log.lock, one block write to the disk, or the test
    that log_write makes before it takes the lock.
    A crash may come between any two steps: it drops everything held in memory.
    Beside what the code stores, the state carries a ledger of what the running file
    system calls did, so that "a call happens completely or not at all" can be said. */
module LogProtocol {
  import opened Common

  const LOGSIZE: nat := 3 * MAXOPBLOCKS
  const WORDS: nat := 128  // BSIZE / sizeof(int)

  type Block = seq<int>
  type Disk = seq<Block>

  /** The log area is blocks start .. start+size-1: one header block, then data blocks. */
  datatype Layout = Layout(start: nat, size: nat, total: nat)

  predicate InLog(lay: Layout, b: int) {
    lay.start <= b < lay.start + lay.size
  }

  predicate Home(lay: Layout, b: int) {
    0 <= b < lay.total && !InLog(lay, b)
  }

  /** The log block that belongs to entry i of the header. */
  function Slot(lay: Layout, i: nat): nat {
    lay.start + 1 + i
  }

  ghost predicate GoodDisk(lay: Layout, d: Disk) {
    && 1 <= lay.size && lay.start + lay.size <= lay.total == |d|
    && forall b :: 0 <= b < |d| ==> |d[b]| == WORDS
  }

  /** Index of the first occurrence of b, or |bs|: the search loop of log_write. */
  function Find(bs: seq<int>, b: int): (i: nat)
    ensures i <= |bs|
    ensures i < |bs| ==> bs[i] == b
    ensures b !in bs[..i]
  {
    if bs == [] then 0
    else if bs[0] == b then 0
    else
      var i := 1 + Find(bs[1..], b);
      assert bs[..i] == [bs[0]] + bs[1..][..i - 1];
      i
  }

  ghost predicate ValidTargets(lay: Layout, bs: seq<int>) {
    && (forall i :: 0 <= i < |bs| ==> Home(lay, bs[i]))
    && (forall i, j :: 0 <= i < j < |bs| ==> bs[i] != bs[j])
  }

  // ---- The header block: word 0 holds n, words 1..n hold the home block numbers ----

  ghost predicate HeadOk(lay: Layout, d: Disk)
    requires GoodDisk(lay, d)
  {
    var n := d[lay.start][0];
    && 0 <= n <= LOGSIZE && n < lay.size
    && ValidTargets(lay, d[lay.start][1..1 + n])
  }

  function ReadHeader(blk: Block): (bs: seq<int>)
    requires |blk| == WORDS && 0 <= blk[0] < WORDS
    ensures |bs| == blk[0]
  {
    blk[1..1 + blk[0]]
  }

  ghost function Head(lay: Layout, d: Disk): (bs: seq<int>)
    requires GoodDisk(lay, d) && HeadOk(lay, d)
    ensures |bs| <= LOGSIZE && |bs| < lay.size && ValidTargets(lay, bs)
  {
    ReadHeader(d[lay.start])
  }

  /** write_head changes only the words it needs: the tail of the old header stays. */
  function PutHeader(blk: Block, lh: seq<int>): (r: Block)
    requires |blk| == WORDS && |lh| <= LOGSIZE
    ensures |r| == WORDS && r[0] == |lh| && ReadHeader(r) == lh
  {
    [|lh|] + lh + blk[1 + |lh|..]
  }

  /** What a reboot makes of home block b on disk d. */
  ghost function RecoveredAt(lay: Layout, d: Disk, b: int): (v: Block)
    requires GoodDisk(lay, d) && HeadOk(lay, d) && Home(lay, b)
    ensures |v| == WORDS
  {
    var i := Find(Head(lay, d), b);
    if i < |Head(lay, d)| then d[Slot(lay, i)] else d[b]
  }

  // ---- The ledger of file system calls ----

  datatype Event =
    | Begin(id: nat)
    | Write(id: nat, b: int, v: Block)
    | End(id: nat)

  /** A call in progress: blocks changed but not yet listed by log_write, blocks listed, and the
      block of a log_write that has passed its test and not yet taken the lock. */
  datatype Op = Op(id: nat, pending: set<int>, logged: set<int>, tested: Option<int>)

  datatype Ledger = Ledger(init: Disk, ops: seq<Op>, history: seq<Event>, cut: nat)

  function Open(h: seq<Event>): set<nat> {
    if h == [] then {}
    else
      var before := Open(h[..|h| - 1]);
      match h[|h| - 1]
      case Begin(id) => before + {id}
      case Write(_, _, _) => before
      case End(id) => before - {id}
  }

  /** Calls have distinct names and write only between their begin and their end. */
  ghost predicate ProperHistory(lay: Layout, h: seq<Event>) {
    forall k :: 0 <= k < |h| ==> ProperEvent(lay, h, k)
  }

  ghost predicate ProperEvent(lay: Layout, h: seq<Event>, k: nat)
    requires k < |h|
  {
    match h[k]
    case Begin(id) => forall j :: 0 <= j < k ==> h[j].id != id
    case Write(id, b, v) => id in Open(h[..k]) && Home(lay, b) && |v| == WORDS
    case End(id) => id in Open(h[..k])
  }

  /** Contents of block b after all the writes of history h on top of init. */
  function ContentAt(init: Disk, h: seq<Event>, b: int): Block
    requires 0 <= b < |init|
  {
    if h == [] then init[b]
    else
      var e := h[|h| - 1];
      if e.Write? && e.b == b then e.v else ContentAt(init, h[..|h| - 1], b)
  }

  /** The unused part of the MAXOPBLOCKS budgets of the calls in progress. */
  function Unused(ops: seq<Op>): int {
    if ops == [] then 0 else MAXOPBLOCKS - |ops[0].logged| + Unused(ops[1..])
  }

  // ---- The machine ----

  datatype Stage =
    | Running                  // no commit in progress
    | CommitCheck              // end_op has set committing; about to call commit
    | WriteLog(tail: nat)      // write_log, then write_head when tail reaches n
    | Install(tail: nat)       // install_trans inside commit
    | Erase                    // lh.n is 0 in memory, not yet on disk
    | CommitDone               // commit has returned, committing still set
    | ReadHead                 // recover_from_log
    | RecInstall(tail: nat)
    | RecErase

  datatype Machine = Machine(lay: Layout, disk: Disk, mem: Disk, lh: seq<int>,
                             outstanding: int, committing: bool, stage: Stage)

  datatype State = State(m: Machine, g: Ledger)

  /** bwrite of a block whose buffer holds v. */
  function BWrite(m: Machine, b: int, v: Block): (r: Machine)
    requires 0 <= b < |m.disk| && 0 <= b < |m.mem|
    ensures |r.disk| == |m.disk| && |r.mem| == |m.mem|
  {
    m.(disk := m.disk[b := v], mem := m.mem[b := v])
  }

  /** The panic test of log_write.  It comes before the search for an absorbed block, and before
      log.lock is taken. */
  predicate LogWritePanics(m: Machine) {
    |m.lh| >= LOGSIZE || |m.lh| >= m.lay.size - 1 || m.outstanding < 1
  }

  predicate BeginBlocked(m: Machine) {
    m.committing || |m.lh| + (m.outstanding + 1) * MAXOPBLOCKS > LOGSIZE
  }

  function BeginMachine(m: Machine): Machine {
    m.(outstanding := m.outstanding + 1)
  }

  function LogWriteMachine(m: Machine, b: int): Machine {
    m.(lh := if Find(m.lh, b) == |m.lh| then m.lh + [b] else m.lh)
  }

  function EndMachine(m: Machine): Machine {
    if m.outstanding == 1
    then m.(outstanding := 0, committing := true, stage := CommitCheck)
    else m.(outstanding := m.outstanding - 1)
  }

  /** One step of the thread that is inside commit(). */
  function CommitMachine(m: Machine): Machine
    requires CommitReady(m)
  {
    var start := m.lay.start;
    match m.stage
    case CommitCheck => m.(stage := if |m.lh| > 0 then WriteLog(0) else CommitDone)
    case WriteLog(t) =>
      if t < |m.lh| then BWrite(m, Slot(m.lay, t), m.mem[m.lh[t]]).(stage := WriteLog(t + 1))
      else BWrite(m, start, PutHeader(m.mem[start], m.lh)).(stage := Install(0))
    case Install(t) =>
      if t < |m.lh| then BWrite(m, m.lh[t], m.mem[Slot(m.lay, t)]).(stage := Install(t + 1))
      else m.(lh := [], stage := Erase)
    case Erase => BWrite(m, start, PutHeader(m.mem[start], m.lh)).(stage := CommitDone)
    case _ => m.(committing := false, stage := Running)
  }

  /** The guards that make CommitMachine meaningful: indices in range. */
  predicate CommitReady(m: Machine) {
    && m.committing && |m.disk| == |m.mem| == m.lay.total
    && m.lay.start + 1 + |m.lh| <= m.lay.total && |m.lh| <= LOGSIZE
    && |m.mem[m.lay.start]| == WORDS
    && (forall i :: 0 <= i < |m.lh| ==> 0 <= m.lh[i] < m.lay.total)
    && match m.stage
       case CommitCheck => true
       case WriteLog(t) => true
       case Install(t) => true
       case Erase => true
       case CommitDone => true
       case _ => false
  }

  function RecoverMachine(m: Machine): Machine
    requires RecoverReady(m)
  {
    var start := m.lay.start;
    if m.stage.ReadHead? then
      m.(lh := ReadHeader(m.mem[start]), stage := RecInstall(0))
    else if m.stage.RecInstall? then
      var t := m.stage.tail;
      if t < |m.lh| then BWrite(m, m.lh[t], m.mem[Slot(m.lay, t)]).(stage := RecInstall(t + 1))
      else m.(lh := [], stage := RecErase)
    else
      BWrite(m, start, PutHeader(m.mem[start], m.lh)).(stage := Running)
  }

  predicate RecoverReady(m: Machine) {
    && |m.disk| == |m.mem| == m.lay.total && m.lay.start < m.lay.total
    && |m.mem[m.lay.start]| == WORDS
    && match m.stage
       case ReadHead => 0 <= m.mem[m.lay.start][0] < WORDS
       case RecInstall(t) =>
         && m.lay.start + 1 + |m.lh| <= m.lay.total
         && (forall i :: 0 <= i < |m.lh| ==> 0 <= m.lh[i] < m.lay.total)
       case RecErase => |m.lh| <= LOGSIZE
       case _ => false
  }

  datatype Action =
    | ABegin(id: nat)
    | AModify(i: nat, b: int, v: Block)
    | ATest(i: nat, b: int)      // log_write up to the lock
    | AAppend(i: nat, b: int)    // log_write under the lock
    | AEnd(i: nat)
    | ACommit
    | ARecover
    | ACrash

  /** What the callers of the log promise: a fresh name per call, home blocks only, every
      changed block is logged before the call ends, at most MAXOPBLOCKS blocks per call. */
  predicate Enabled(s: State, a: Action) {
    match a
    case ABegin(id) =>
      && s.m.stage == Running && !BeginBlocked(s.m)
      && forall k | 0 <= k < |s.g.history| :: s.g.history[k].id != id
    case AModify(i, b, v) =>
      && s.m.stage == Running && i < |s.g.ops| && s.g.ops[i].tested == None
      && Home(s.m.lay, b) && |v| == WORDS && b < |s.m.mem|
    case ATest(i, b) => CanTest(s, i, b) && !LogWritePanics(s.m)
    case AAppend(i, b) => s.m.stage == Running && i < |s.g.ops| && s.g.ops[i].tested == Some(b)
    case AEnd(i) =>
      s.m.stage == Running && i < |s.g.ops| && s.g.ops[i].pending == {} && s.g.ops[i].tested == None
    case ACommit => CommitReady(s.m)
    case ARecover => RecoverReady(s.m)
    case ACrash => s.g.cut <= |s.g.history|
  }

  /** Call i calls log_write for a block it has changed, within its budget. */
  predicate CanTest(s: State, i: nat, b: int) {
    && s.m.stage == Running && i < |s.g.ops| && s.g.ops[i].tested == None && b in s.g.ops[i].pending
    && |s.g.ops[i].logged + {b}| <= MAXOPBLOCKS
  }

  /** The moment the header reaches the disk (or an empty log is found) is the commit point. */
  predicate CommitPoint(m: Machine) {
    || (m.stage == CommitCheck && |m.lh| == 0)
    || (m.stage.WriteLog? && m.stage.tail >= |m.lh|)
  }

  function Do(s: State, a: Action): State
    requires Enabled(s, a)
  {
    var m, g := s.m, s.g;
    match a
    case ABegin(id) =>
      State(BeginMachine(m), g.(ops := g.ops + [Op(id, {}, {}, None)], history := g.history + [Begin(id)]))
    case AModify(i, b, v) =>
      var op := g.ops[i];
      State(m.(mem := m.mem[b := v]),
            g.(ops := g.ops[i := op.(pending := op.pending + {b})],
               history := g.history + [Write(op.id, b, v)]))
    case ATest(i, b) => State(m, g.(ops := g.ops[i := g.ops[i].(tested := Some(b))]))
    case AAppend(i, b) =>
      var op := g.ops[i];
      State(LogWriteMachine(m, b),
            g.(ops := g.ops[i := Op(op.id, op.pending - {b}, op.logged + {b}, None)]))
    case AEnd(i) =>
      State(EndMachine(m),
            g.(ops := g.ops[..i] + g.ops[i + 1..], history := g.history + [End(g.ops[i].id)]))
    case ACommit =>
      State(CommitMachine(m), if CommitPoint(m) then g.(cut := |g.history|) else g)
    case ARecover => State(RecoverMachine(m), g)
    case ACrash =>
      State(Machine(m.lay, m.disk, m.disk, [], 0, false, ReadHead),
            g.(ops := [], history := g.history[..g.cut]))
  }

  /** A log in which no transaction of the calls it admits runs out of the log area, because it
      is large enough, or has no room for any block at all. */
  predicate Ample(lay: Layout) {
    lay.size > LOGSIZE || lay.size == 1
  }

  /** A freshly made disk about to be booted: mkfs leaves the log header zero, and the disk does not
      end before the last block that a full header can ask for. */
  function Boot(lay: Layout, d: Disk): State {
    State(Machine(lay, d, d, [], 0, false, ReadHead), Ledger(d, [], [], 0))
  }

  ghost predicate Fresh(lay: Layout, d: Disk) {
    GoodDisk(lay, d) && d[lay.start][0] == 0 && lay.start + 1 + LOGSIZE <= lay.total
  }

  /** ValidRun: every action was enabled when it was taken.  Exec: the state it leads to. */
  ghost predicate ValidRun(s0: State, acts: seq<Action>)
    decreases |acts|, 0
  {
    acts == [] ||
    (ValidRun(s0, acts[..|acts| - 1]) && Enabled(Exec(s0, acts[..|acts| - 1]), acts[|acts| - 1]))
  }

  ghost function Exec(s0: State, acts: seq<Action>): State
    requires ValidRun(s0, acts)
    decreases |acts|, 1
  {
    if acts == [] then s0 else Do(Exec(s0, acts[..|acts| - 1]), acts[|acts| - 1])
  }
}
