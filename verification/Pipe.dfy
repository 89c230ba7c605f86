/** pipe.c: a ring of 512 bytes with free-running 32-bit counters, shared by any number of readers
    and writers.  A call is a sequence of steps, each from taking p->lock to sleeping or returning. */
module Pipe {
  import opened Common

  const PIPESIZE: nat := 512

  type byte = x: int | 0 <= x < 256

  /** What a step ends with. */
  datatype Outcome = Returned(n: int) | Asleep

  /** sent and got are every byte ever written and read; readers and writers are asleep on
      &p->nread and &p->nwrite. */
  datatype State = State(sent: seq<byte>, got: seq<byte>, readopen: bool, writeopen: bool, readers: set<nat>,
                         writers: set<nat>)

  // ---- The steps ----

  ghost function Held(s: State): int { |s.sent| - |s.got| }

  ghost function Min(a: int, b: int): int { if a < b then a else b }

  /** How many of the bytes fit before the pipe is full. */
  ghost function Fits(s: State, n: nat): nat {
    if Held(s) > PIPESIZE then 0 else Min(n, PIPESIZE - Held(s))
  }

  /** The error exit of pipewrite, taken when the pipe is full. */
  ghost predicate WriteFails(s: State, bytes: seq<byte>, killed: bool) {
    Fits(s, |bytes|) < |bytes| && (!s.readopen || killed)
  }

  ghost function Write(s: State, pid: nat, bytes: seq<byte>, killed: bool): State {
    var k := Fits(s, |bytes|);
    var t := s.(sent := s.sent + bytes[..k]);
    if WriteFails(s, bytes, killed) then t
    else if k < |bytes| then t.(readers := {}, writers := s.writers + {pid})
    else t.(readers := {})
  }

  ghost predicate ReadWaits(s: State) {
    Held(s) == 0 && s.writeopen
  }

  ghost function Read(s: State, pid: nat, n: nat, killed: bool): State
    requires Held(s) >= 0
  {
    if ReadWaits(s) then (if killed then s else s.(readers := s.readers + {pid}))
    else s.(got := s.got + s.sent[|s.got|..][..Min(n, Held(s))], writers := {})
  }

  ghost function Close(s: State, writable: bool): State {
    if writable then s.(writeopen := false, readers := {}) else s.(readopen := false, writers := {})
  }

  // ---- Safety over every run ----

  /** First in, first out, and never more than PIPESIZE bytes in between. */
  ghost predicate Fifo(s: State) {
    s.got <= s.sent && Held(s) <= PIPESIZE
  }

  /** Nobody sleeps who could go on; and a sleeper's own end is open. */
  ghost predicate Awake(s: State) {
    && (s.readers != {} ==> Held(s) == 0 && s.writeopen && s.readopen)
    && (s.writers != {} ==> Held(s) == PIPESIZE && s.readopen && s.writeopen)
  }

  datatype Action =
    | WriteStep(pid: nat, bytes: seq<byte>, killed: bool)
    | ReadStep(pid: nat, n: nat, killed: bool)
    | CloseStep(writable: bool)
    | KillStep(pid: nat)

  ghost predicate Enabled(s: State, a: Action) {
    match a
    case WriteStep(pid, _, _) => pid !in s.readers && pid !in s.writers && s.writeopen
    case ReadStep(pid, _, _) => pid !in s.readers && pid !in s.writers && s.readopen && Held(s) >= 0
    case CloseStep(writable) => if writable then s.writeopen && s.writers == {} else s.readopen && s.readers == {}
    case KillStep(_) => true
  }

  ghost function Do(s: State, a: Action): State
    requires Enabled(s, a)
  {
    match a
    case WriteStep(pid, bytes, killed) => Write(s, pid, bytes, killed)
    case ReadStep(pid, n, killed) => Read(s, pid, n, killed)
    case CloseStep(writable) => Close(s, writable)
    case KillStep(pid) => s.(readers := s.readers - {pid}, writers := s.writers - {pid})
  }

  ghost predicate ValidRun(s: State, run: seq<Action>)
    decreases run
  {
    run == [] || (Enabled(s, run[0]) && ValidRun(Do(s, run[0]), run[1..]))
  }

  ghost function Exec(s: State, run: seq<Action>): State
    requires ValidRun(s, run)
    decreases run
  {
    if run == [] then s else Exec(Do(s, run[0]), run[1..])
  }

  const NEW := State([], [], true, true, {}, {})

  lemma StepFifo(s: State, a: Action)
    requires Fifo(s) && Enabled(s, a)
    ensures Fifo(Do(s, a))
  {
    if a.ReadStep? && !ReadWaits(s) {
      var k := Min(a.n, Held(s));
      assert s.got + s.sent[|s.got|..][..k] == s.sent[..|s.got| + k];
    }
  }

  lemma {:induction false} RunFifo(s: State, run: seq<Action>)
    requires Fifo(s) && ValidRun(s, run)
    ensures Fifo(Exec(s, run))
    decreases run
  {
    hide Fifo, Do, Enabled;
    if run != [] {
      StepFifo(s, run[0]);
      RunFifo(Do(s, run[0]), run[1..]);
    }
  }

  /** A killed writer that has put bytes in and returns with the pipe full wakes no reader. */
  ghost predicate Silent(s: State, a: Action) {
    a.WriteStep? && s.readers != {} && a.killed && |a.bytes| > PIPESIZE
  }

  /** That is the only step after which somebody sleeps who could go on. */
  lemma StepAwakeIff(s: State, a: Action)
    requires Fifo(s) && Awake(s) && Enabled(s, a)
    ensures Awake(Do(s, a)) <==> !Silent(s, a)
  {
    if a.ReadStep? && !ReadWaits(s) {
      var k := Min(a.n, Held(s));
      assert |s.sent[|s.got|..][..k]| == k;
    }
  }

  ghost predicate NeverSilent(s: State, run: seq<Action>)
    requires ValidRun(s, run)
    decreases run
  {
    run == [] || (!Silent(s, run[0]) && NeverSilent(Do(s, run[0]), run[1..]))
  }

  lemma {:induction false} RunAwake(s: State, run: seq<Action>)
    requires Fifo(s) && Awake(s) && ValidRun(s, run) && NeverSilent(s, run)
    ensures Awake(Exec(s, run))
    decreases run
  {
    hide Fifo, Awake, Do, Enabled, Silent;
    if run != [] {
      StepFifo(s, run[0]);
      StepAwakeIff(s, run[0]);
      RunAwake(Do(s, run[0]), run[1..]);
    }
  }

  /** From a new pipe: what was read is a prefix of what was written, and if no killed writer
      returned silently, a sleeping reader has nothing to read and a sleeping writer no room. */
  lemma PipeSafety(run: seq<Action>)
    requires ValidRun(NEW, run)
    ensures var s := Exec(NEW, run); s.got <= s.sent && Held(s) <= PIPESIZE && (NeverSilent(NEW, run) ==> Awake(s))
  {
    hide Exec, ValidRun, NeverSilent;
    RunFifo(NEW, run);
    if NeverSilent(NEW, run) { RunAwake(NEW, run); }
  }

  /** A reader left asleep with a full pipe: it waits, then a killed process writes 513 bytes. */
  lemma ReaderLeftAsleep(bytes: seq<byte>)
    requires |bytes| == PIPESIZE + 1
    ensures exists run :: ValidRun(NEW, run) && 1 in Exec(NEW, run).readers && Held(Exec(NEW, run)) == PIPESIZE
  {
    var a, b := ReadStep(1, 1, false), WriteStep(2, bytes, true);
    var s := Do(NEW, a);
    TwoSteps(NEW, a, b);
    assert 1 in s.readers && Held(s) == 0 && Fits(s, |bytes|) == PIPESIZE && |bytes[..PIPESIZE]| == PIPESIZE;
  }

  lemma TwoSteps(s: State, a: Action, b: Action)
    requires Enabled(s, a) && Enabled(Do(s, a), b)
    ensures ValidRun(s, [a, b]) && Exec(s, [a, b]) == Do(Do(s, a), b)
  {
    hide Enabled, Do;
    var t, none: seq<Action> := Do(s, a), [];
    assert [b][1..] == none && ValidRun(Do(t, b), none) && Exec(Do(t, b), none) == Do(t, b);
    assert ValidRun(t, [b]) && Exec(t, [b]) == Do(t, b);
    assert [a, b][1..] == [b];
  }

  // ---- After an end is closed ----

  lemma {:induction false} ClosedStays(s: State, run: seq<Action>)
    requires ValidRun(s, run)
    ensures !s.writeopen ==> !Exec(s, run).writeopen && Exec(s, run).sent == s.sent
    ensures !s.readopen ==> !Exec(s, run).readopen && Exec(s, run).got == s.got
    decreases run
  {
    hide Fifo, Awake;
    if run != [] { ClosedStays(Do(s, run[0]), run[1..]); }
  }

  lemma {:induction false} ExecConcat(s: State, a: seq<Action>, b: seq<Action>)
    requires ValidRun(s, a + b)
    ensures ValidRun(s, a) && ValidRun(Exec(s, a), b) && Exec(s, a + b) == Exec(Exec(s, a), b)
    decreases a
  {
    hide Do, Enabled;
    if a == [] {
      assert a + b == b;
    } else {
      assert (a + b)[0] == a[0] && (a + b)[1..] == a[1..] + b;
      ExecConcat(Do(s, a[0]), a[1..], b);
    }
  }

  /** Once the write end is closed nothing more is written, and no reader sleeps again: a drained pipe
      gives every reader nothing, and for good. */
  lemma EndOfFile(before: seq<Action>, after: seq<Action>, pid: nat, n: nat, killed: bool)
    requires ValidRun(NEW, before + [CloseStep(true)] + after)
    ensures ValidRun(NEW, before)
    ensures var s := Exec(NEW, before + [CloseStep(true)] + after);
            && s.sent == Exec(NEW, before).sent && s.got <= s.sent && !ReadWaits(s)
            && Read(s, pid, n, killed).readers == s.readers
            && (Held(s) == 0 ==> Read(s, pid, n, killed).got == s.got)
  {
    var run := before + [CloseStep(true)];
    RunFifo(NEW, run + after);
    ExecConcat(NEW, run, after);
    ExecConcat(NEW, before, [CloseStep(true)]);
    OneStep(Exec(NEW, before), CloseStep(true));
    ClosedStays(Exec(NEW, run), after);
  }

  /** Once the read end is closed nothing more is read, and no writer sleeps again: a write that does not
      fit fails. */
  lemma BrokenPipe(before: seq<Action>, after: seq<Action>, pid: nat, bytes: seq<byte>, killed: bool)
    requires ValidRun(NEW, before + [CloseStep(false)] + after)
    ensures ValidRun(NEW, before)
    ensures var s := Exec(NEW, before + [CloseStep(false)] + after);
            && s.got == Exec(NEW, before).got && Held(s) <= PIPESIZE
            && Write(s, pid, bytes, killed).writers == s.writers
            && (|bytes| > PIPESIZE - Held(s) <==> WriteFails(s, bytes, killed))
  {
    var run := before + [CloseStep(false)];
    RunFifo(NEW, run + after);
    ExecConcat(NEW, run, after);
    ExecConcat(NEW, before, [CloseStep(false)]);
    OneStep(Exec(NEW, before), CloseStep(false));
    ClosedStays(Exec(NEW, run), after);
  }

  lemma OneStep(s: State, a: Action)
    requires ValidRun(s, [a])
    ensures Enabled(s, a) && Exec(s, [a]) == Do(s, a)
  {
    var none: seq<Action> := [];
    assert [a][1..] == none && ValidRun(Do(s, a), none);
  }

  // ---- The ring ----

  /** Position k of the stream is at the same place in the ring, whether counted in 32 bits or not. */
  lemma RingIndex(k: nat)
    ensures k % UINT % PIPESIZE == k % PIPESIZE
  {
    assert UINT == PIPESIZE * 0x80_0000;
    assert k == k / UINT * UINT + k % UINT;
    var m := k / UINT * 0x80_0000;
    assert k == m * PIPESIZE + k % UINT;
    AddMultiple(k % UINT, m);
  }

  lemma AddMultiple(a: nat, m: nat)
    ensures (m * PIPESIZE + a) % PIPESIZE == a % PIPESIZE
  {
  }

  /** Within PIPESIZE of each other, two counters agree in 32 bits exactly when they agree. */
  lemma CountersAgree(r: nat, w: nat)
    requires r <= w <= r + PIPESIZE
    ensures r % UINT == w % UINT <==> r == w
    ensures w % UINT == (r % UINT + PIPESIZE) % UINT <==> w == r + PIPESIZE
  {
  }

  lemma Distinct(j: nat, k: nat)
    requires j < k < j + PIPESIZE
    ensures j % PIPESIZE != k % PIPESIZE
  {
  }

  /** c counts n in 32 bits. */
  ghost predicate Counter(c: nat, n: nat) {
    c == n % UINT
  }

  lemma CounterNext(c: nat, n: nat)
    requires Counter(c, n)
    ensures c % PIPESIZE == n % PIPESIZE && Counter((c + 1) % UINT, n + 1)
  {
    assert c % PIPESIZE == n % PIPESIZE by { RingIndex(n); }
    assert (c + 1) % UINT == (n + 1) % UINT by { WrapNext(n); }
  }

  lemma WrapNext(n: nat)
    ensures (n % UINT + 1) % UINT == (n + 1) % UINT
  {
  }

  ghost predicate InRing(data: seq<byte>, sent: seq<byte>, from: nat) {
    |data| == PIPESIZE && forall k :: from <= k < |sent| ==> data[k % PIPESIZE] == sent[k]
  }

  lemma PutInRing(data: seq<byte>, sent: seq<byte>, from: nat, b: byte)
    requires InRing(data, sent, from) && from <= |sent| < from + PIPESIZE
    ensures InRing(data[|sent| % PIPESIZE := b], sent + [b], from)
  {
    forall k | from <= k < |sent| ensures k % PIPESIZE != |sent| % PIPESIZE { Distinct(k, |sent|); }
  }

  class RingPipe {
    var data: array<byte>
    var nread: nat
    var nwrite: nat
    var readopen: bool
    var writeopen: bool
    ghost var sent: seq<byte>
    ghost var got: seq<byte>
    ghost var readers: set<nat>
    ghost var writers: set<nat>

    ghost function Abs(): State reads this { State(sent, got, readopen, writeopen, readers, writers) }

    ghost predicate Valid() reads this, data {
      && Fifo(Abs()) && Counter(nread, |got|) && Counter(nwrite, |sent|)
      && data.Length == PIPESIZE && InRing(data[..], sent, |got|)
    }

    constructor ()
      ensures Valid() && Abs() == NEW
    {
      data := new byte[PIPESIZE](i => 0);
      nread, nwrite, readopen, writeopen := 0, 0, true, true;
      sent, got, readers, writers := [], [], {}, {};
    }

    function IsFull(): (r: bool)
      requires Valid()
      reads this, data
      ensures r == (Held(Abs()) == PIPESIZE)
    {
      CountersAgree(|got|, |sent|);
      nwrite == (nread + PIPESIZE) % UINT
    }

    function IsEmpty(): (r: bool)
      requires Valid()
      reads this, data
      ensures r == (Held(Abs()) == 0)
    {
      CountersAgree(|got|, |sent|);
      nread == nwrite
    }

    method PutByte(b: byte)
      requires Valid() && Held(Abs()) < PIPESIZE
      modifies this`nwrite, this`sent, data
      ensures Valid() && sent == old(sent) + [b]
    {
      hide InRing, Counter;
      CounterNext(nwrite, |sent|);
      PutInRing(data[..], sent, |got|, b);
      data[nwrite % PIPESIZE] := b;
      nwrite := (nwrite + 1) % UINT;
      sent := sent + [b];
    }

    method TakeByte() returns (b: byte)
      requires Valid() && Held(Abs()) > 0
      modifies this`nread, this`got
      ensures Valid() && b == sent[|old(got)|] && got == old(got) + [b]
    {
      hide InRing, Counter;
      CounterNext(nread, |got|);
      TakeFromRing(data[..], sent, |got|);
      b := data[nread % PIPESIZE];
      nread := (nread + 1) % UINT;
      got := got + [b];
    }

    /** pipewrite from byte 0 of what is left, under the lock, to its return or its next sleep;
        done is how many bytes went in. */
    method WriteSome(ghost pid: nat, addr: seq<byte>, total: nat, killed: bool) returns (r: Outcome, done: nat)
      requires Valid()
      modifies this, data
      ensures Valid() && Abs() == Write(old(Abs()), pid, addr, killed) && done == Fits(old(Abs()), |addr|)
      ensures r == if done == |addr| then Returned(total)
                   else if WriteFails(old(Abs()), addr, killed) then Returned(-1) else Asleep
      ensures data == old(data) && got == old(got) && readopen == old(readopen) && writeopen == old(writeopen)
      ensures done == Min(|addr|, PIPESIZE - |old(sent)| + |got|) && sent == old(sent) + addr[..done]
      ensures done < |addr| ==> r == if !readopen || killed then Returned(-1) else Asleep
      ensures readers == if r == Returned(-1) && done < |addr| then old(readers) else {}
      ensures writers == old(writers) + if r == Asleep then {pid} else {}
    {
      hide InRing, Counter;
      done := 0;
      while done < |addr|
        invariant done <= |addr| && Valid() && data == old(data) && got == old(got) && sent == old(sent) + addr[..done]
        invariant readopen == old(readopen) && writeopen == old(writeopen) && readers == old(readers)
        invariant writers == old(writers)
      {
        if IsFull() {
          if !readopen || killed {
            return Returned(-1), done;
          }
          readers := {};
          writers := writers + {pid};
          return Asleep, done;
        }
        PutByte(addr[done]);
        done := done + 1;
      }
      assert addr[..done] == addr;
      readers := {};
      return Returned(total), done;
    }

    /** piperead under the lock, to its return or its next sleep.  It returns no byte for a
        positive n only when the pipe is drained and the write end closed. */
    method ReadSome(ghost pid: nat, n: nat, killed: bool) returns (r: Outcome, addr: seq<byte>)
      requires Valid()
      modifies this
      ensures Valid() && Abs() == Read(old(Abs()), pid, n, killed)
      ensures got == old(got) + addr && addr == old(sent)[|old(got)|..|got|]
      ensures r == if !ReadWaits(old(Abs())) then Returned(|addr|) else if killed then Returned(-1) else Asleep
      ensures sent == old(sent) && readopen == old(readopen) && writeopen == old(writeopen)
      ensures r == if old(got) == sent && writeopen then (if killed then Returned(-1) else Asleep) else Returned(|addr|)
      ensures |addr| == if old(got) == sent && writeopen then 0 else Min(n, |sent| - |old(got)|)
      ensures readers == old(readers) + if r == Asleep then {pid} else {}
      ensures writers == if old(got) == sent && writeopen then old(writers) else {}
      ensures r == Returned(0) && n > 0 <==> n > 0 && old(got) == sent && !writeopen
    {
      hide InRing, Counter;
      addr := [];
      if IsEmpty() && writeopen {
        if killed {
          return Returned(-1), [];
        }
        readers := readers + {pid};
        return Asleep, [];
      }
      var i := 0;
      while i < n
        invariant i <= n && i == |addr| && Valid() && data == old(data) && data[..] == old(data[..])
        invariant sent == old(sent)
        invariant got == old(got) + addr && readopen == old(readopen) && writeopen == old(writeopen)
        invariant readers == old(readers)
      {
        if IsEmpty() {
          break;
        }
        var b := TakeByte();
        addr := addr + [b];
        i := i + 1;
      }
      writers := {};
      assert got == sent[..|got|];
      return Returned(i), addr;
    }

    /** pipeclose; freed tells that both ends are now closed. */
    method CloseEnd(writable: bool) returns (freed: bool)
      requires Valid()
      modifies this
      ensures Valid() && Abs() == Close(old(Abs()), writable) && freed == (!readopen && !writeopen) && data == old(data)
      ensures writeopen == (old(writeopen) && !writable) && readopen == (old(readopen) && writable)
      ensures sent == old(sent) && got == old(got)
      ensures readers == (if writable then {} else old(readers)) && writers == if writable then old(writers) else {}
    {
      if writable {
        writeopen := false;
        readers := {};
      } else {
        readopen := false;
        writers := {};
      }
      return !readopen && !writeopen;
    }
  }

  lemma TakeFromRing(data: seq<byte>, sent: seq<byte>, from: nat)
    requires InRing(data, sent, from) && from < |sent|
    ensures data[from % PIPESIZE] == sent[from] && InRing(data, sent, from + 1)
  {
  }
}
