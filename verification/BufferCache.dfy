/** bio.c over the in-memory disk of memide.c: a ring of buffers through prev and next, most
    recently released first. */
module BufferCache {
  import opened Common

  const NBUF: nat := 30
  const HEAD: nat := NBUF  // index of the list head bcache.head

  type Data = seq<bv8>

  datatype Buf = Buf(dev: nat, blockno: nat, refcnt: nat, valid: bool, dirty: bool, locked: bool,
                     data: Data, prev: nat, next: nat)

  // ---- The ring ----

  function SetNext(bufs: seq<Buf>, x: nat, y: nat): seq<Buf>
    requires x < |bufs|
  {
    bufs[x := bufs[x].(next := y)]
  }

  function SetPrev(bufs: seq<Buf>, x: nat, y: nat): seq<Buf>
    requires x < |bufs|
  {
    bufs[x := bufs[x].(prev := y)]
  }

  /** Element i of the list, where the head stands before the first and after the last. */
  function At(order: seq<nat>, i: int): nat {
    if 0 <= i < |order| then order[i] else HEAD
  }

  /** The links form a ring that visits exactly the buffers of order, in that order. */
  ghost predicate Ring(bufs: seq<Buf>, order: seq<nat>) {
    && |bufs| == NBUF + 1
    && (forall i :: 0 <= i < |order| ==> order[i] < NBUF)
    && (forall i, j :: 0 <= i < j < |order| ==> order[i] != order[j])
    && bufs[HEAD].next == At(order, 0) && bufs[HEAD].prev == At(order, |order| - 1)
    && (forall i :: 0 <= i < |order| ==> Linked(bufs, order, i))
  }

  ghost predicate Linked(bufs: seq<Buf>, order: seq<nat>, i: nat)
    requires i < |order| && order[i] < |bufs|
  {
    bufs[order[i]].next == At(order, i + 1) && bufs[order[i]].prev == At(order, i - 1)
  }

  /** The first two assignments of brelse's splice. */
  function Unlink(bufs: seq<Buf>, b: nat): seq<Buf>
    requires b < |bufs| && bufs[b].next < |bufs| && bufs[b].prev < |bufs|
  {
    var s := SetPrev(bufs, bufs[b].next, bufs[b].prev);
    SetNext(s, s[b].prev, s[b].next)
  }

  /** The remaining four; binit uses the same ones. */
  function PushFront(bufs: seq<Buf>, b: nat): seq<Buf>
    requires b < |bufs| && HEAD < |bufs| && bufs[HEAD].next < |bufs|
  {
    var first := bufs[HEAD].next;
    SetNext(SetPrev(SetPrev(SetNext(bufs, b, first), b, HEAD), first, b), HEAD, b)
  }

  function Remove(order: seq<nat>, k: nat): seq<nat>
    requires k < |order|
  {
    order[..k] + order[k + 1..]
  }

  lemma UnlinkFields(bufs: seq<Buf>, b: nat)
    requires b < |bufs| && bufs[b].next < |bufs| && bufs[b].prev < |bufs|
    requires b != bufs[b].next && b != bufs[b].prev
    ensures |Unlink(bufs, b)| == |bufs| && SameButLinks(bufs, Unlink(bufs, b))
    ensures forall x :: 0 <= x < |bufs| ==>
              && Unlink(bufs, b)[x].next == (if x == bufs[b].prev then bufs[b].next else bufs[x].next)
              && Unlink(bufs, b)[x].prev == (if x == bufs[b].next then bufs[b].prev else bufs[x].prev)
  {
  }

  lemma UnlinkLinked(bufs: seq<Buf>, order: seq<nat>, k: nat, i: nat)
    requires Ring(bufs, order) && k < |order| && i < |order| - 1
    requires bufs[order[k]].next < |bufs| && bufs[order[k]].prev < |bufs|
    ensures Remove(order, k)[i] < NBUF < |Unlink(bufs, order[k])| && Linked(Unlink(bufs, order[k]), Remove(order, k), i)
  {
    hide Unlink;
    assert Linked(bufs, order, k);
    UnlinkFields(bufs, order[k]);
    var o := if i < k then i else i + 1;
    assert Remove(order, k)[i] == order[o] && Linked(bufs, order, o);
  }

  lemma UnlinkRing(bufs: seq<Buf>, order: seq<nat>, k: nat)
    requires Ring(bufs, order) && k < |order|
    ensures bufs[order[k]].next == At(order, k + 1) < |bufs| && bufs[order[k]].prev == At(order, k - 1) < |bufs|
    ensures order[k] != bufs[order[k]].next && order[k] != bufs[order[k]].prev
    ensures Ring(Unlink(bufs, order[k]), Remove(order, k))
  {
    hide Unlink;
    assert Linked(bufs, order, k);
    UnlinkFields(bufs, order[k]);
    var rest := Remove(order, k);
    assert forall i :: 0 <= i < |rest| ==> rest[i] == order[if i < k then i else i + 1];
    forall i | 0 <= i < |rest| ensures Linked(Unlink(bufs, order[k]), rest, i) {
      UnlinkLinked(bufs, order, k, i);
    }
  }

  lemma PushFrontRing(bufs: seq<Buf>, order: seq<nat>, b: nat)
    requires Ring(bufs, order) && b < NBUF && b !in order
    ensures bufs[HEAD].next < |bufs|
    ensures Ring(PushFront(bufs, b), [b] + order)
  {
    var s, all := PushFront(bufs, b), [b] + order;
    var first := bufs[HEAD].next;
    assert first == At(order, 0);
    forall i | 0 <= i < |all| ensures Linked(s, all, i) {
      if i > 0 {
        assert all[i] == order[i - 1] && all[i] != b && Linked(bufs, order, i - 1);
        assert all[i] == first <==> i == 1;
      }
    }
  }

  /** Everything about a buffer except its place in the list. */
  ghost predicate SameButLinks(a: seq<Buf>, b: seq<Buf>) {
    |a| == |b| && forall i :: 0 <= i < |a| ==> b[i].(prev := 0, next := 0) == a[i].(prev := 0, next := 0)
  }

  // ---- The cache against a flat disk ----

  /** No two buffers hold the same block.  All buffers start as block 0 of device 0. */
  ghost predicate Unique(bufs: seq<Buf>) {
    forall i, j :: 0 <= i < j < NBUF < |bufs| && bufs[i].dev != 0 ==>
      !(bufs[i].dev == bufs[j].dev && bufs[i].blockno == bufs[j].blockno)
  }

  /** flat is what the blocks of the disk hold as far as users of the cache can tell. */
  ghost predicate Agrees(bufs: seq<Buf>, disk: seq<Data>, flat: seq<Data>, touched: set<nat>) {
    && |disk| == |flat| && |bufs| == NBUF + 1
    && (forall b :: 0 <= b < NBUF && bufs[b].valid && bufs[b].dev == 1 ==>
          bufs[b].blockno < |flat| && bufs[b].data == flat[bufs[b].blockno])
    && (forall n :: 0 <= n < |flat| && disk[n] != flat[n] ==> HeldBack(bufs, touched, n))
    && (forall b :: 0 <= b < NBUF ==> Tidy(bufs[b]))
    && (forall b :: b in touched ==> b < NBUF && bufs[b].locked && bufs[b].valid)
  }

  /** Block n is in a buffer that must not be recycled. */
  ghost predicate HeldBack(bufs: seq<Buf>, touched: set<nat>, n: nat)
    requires |bufs| == NBUF + 1
  {
    exists b :: 0 <= b < NBUF && bufs[b].dev == 1 && bufs[b].blockno == n && bufs[b].valid
                && (bufs[b].dirty || b in touched)
  }

  predicate Tidy(b: Buf) {
    (b.locked ==> b.refcnt > 0) && (b.dirty ==> b.valid)
  }

  /** Buffers stand in the order of their last release, latest first. */
  ghost predicate Recency(order: seq<nat>, released: seq<nat>, clock: nat) {
    && |released| == NBUF
    && (forall i :: 0 <= i < |order| ==> order[i] < NBUF && released[order[i]] < clock)
    && (forall i, j :: 0 <= i < j < |order| ==> released[order[i]] > released[order[j]])
  }

  predicate Recyclable(b: Buf) {
    b.refcnt == 0 && !b.dirty
  }

  predicate Holds(b: Buf, dev: nat, blockno: nat) {
    b.dev == dev && b.blockno == blockno
  }

  const BLANK: Buf := Buf(0, 0, 0, false, false, false, [], 0, 0)

  lemma {:induction false} AllListed(order: seq<nat>, b: nat) returns (i: nat)
    requires |order| == NBUF && b < NBUF
    requires (forall j :: 0 <= j < |order| ==> order[j] < NBUF)
    requires forall j, k :: 0 <= j < k < |order| ==> order[j] != order[k]
    ensures i < |order| && order[i] == b
  {
    if b !in order {
      NoRoom(order, NBUF, b);
    }
    i :| 0 <= i < |order| && order[i] == b;
  }

  /** Distinct numbers below n that miss one of them are fewer than n. */
  lemma {:induction false} NoRoom(s: seq<nat>, n: nat, b: nat)
    requires b < n && b !in s
    requires (forall j :: 0 <= j < |s| ==> s[j] < n) && forall j, k :: 0 <= j < k < |s| ==> s[j] != s[k]
    ensures |s| < n
  {
    var mine := Elems(s);
    Distinct(s);
    assert mine <= Upto(n) - {b} && |Upto(n) - {b}| == n - 1;
    SubsetSize(mine, Upto(n) - {b});
  }

  function Upto(n: nat): (r: set<nat>)
    ensures |r| == n && forall x :: x in r <==> 0 <= x < n
  {
    if n == 0 then {} else Upto(n - 1) + {n - 1}
  }

  function Elems(s: seq<nat>): set<nat> {
    set x | x in s
  }

  lemma {:induction false} Distinct(s: seq<nat>)
    requires forall j, k :: 0 <= j < k < |s| ==> s[j] != s[k]
    ensures |Elems(s)| == |s|
  {
    if s == [] {
      assert Elems(s) == {};
    } else {
      Distinct(s[1..]);
      assert Elems(s) == Elems(s[1..]) + {s[0]};
      assert s[0] !in s[1..];
    }
  }

  /** A list with room left also agrees on everything but links. */
  lemma LinksDoNotMatter(a: seq<Buf>, b: seq<Buf>, disk: seq<Data>, flat: seq<Data>, touched: set<nat>)
    requires SameButLinks(a, b) && Unique(a) && Agrees(a, disk, flat, touched)
    ensures Unique(b) && Agrees(b, disk, flat, touched)
  {
    forall i | 0 <= i < |a|
      ensures b[i].dev == a[i].dev && b[i].blockno == a[i].blockno && b[i].valid == a[i].valid && b[i].data == a[i].data
      ensures b[i].dirty == a[i].dirty && b[i].locked == a[i].locked && b[i].refcnt == a[i].refcnt
    {
      var x, y := a[i].(prev := 0, next := 0), b[i].(prev := 0, next := 0);
      assert x == y;
    }
    forall n | 0 <= n < |flat| && disk[n] != flat[n] ensures HeldBack(b, touched, n) {
      var k :| 0 <= k < NBUF && a[k].dev == 1 && a[k].blockno == n && a[k].valid && (a[k].dirty || k in touched);
      assert b[k].dev == 1;
    }
  }

  lemma BlankAgrees(bufs: seq<Buf>, disk: seq<Data>)
    requires |bufs| == NBUF + 1 && forall i :: 0 <= i <= NBUF ==> bufs[i] == BLANK.(prev := HEAD, next := HEAD)
    ensures Unique(bufs) && Agrees(bufs, disk, disk, {})
  {
  }

  function Recycled(b: Buf, dev: nat, blockno: nat): Buf {
    b.(dev := dev, blockno := blockno, valid := false, dirty := false, refcnt := 1)
  }

  ghost predicate Good(bufs: seq<Buf>, order: seq<nat>, disk: seq<Data>, flat: seq<Data>, touched: set<nat>) {
    Ring(bufs, order) && Unique(bufs) && Agrees(bufs, disk, flat, touched)
  }

  lemma RingKept(bufs: seq<Buf>, order: seq<nat>, b: nat, x: Buf)
    requires Ring(bufs, order) && b < NBUF && x.prev == bufs[b].prev && x.next == bufs[b].next
    ensures Ring(bufs[b := x], order)
  {
    var bufs' := bufs[b := x];
    forall i | 0 <= i < |order| ensures Linked(bufs', order, i) {
      assert Linked(bufs, order, i);
    }
  }

  /** A change of lock and count alone. */
  lemma UpdateKeeps(bufs: seq<Buf>, order: seq<nat>, disk: seq<Data>, flat: seq<Data>, touched: set<nat>, b: nat,
                    x: Buf)
    requires Good(bufs, order, disk, flat, touched) && b < NBUF
    requires x == bufs[b].(locked := x.locked, refcnt := x.refcnt) && (x.locked ==> x.refcnt > 0)
    requires b in touched ==> x.locked
    ensures Good(bufs[b := x], order, disk, flat, touched)
  {
    var bufs' := bufs[b := x];
    RingKept(bufs, order, b, x);
    assert Tidy(bufs[b]);
    forall n | 0 <= n < |flat| && disk[n] != flat[n] ensures HeldBack(bufs', touched, n) {
      var k :| 0 <= k < NBUF && bufs[k].dev == 1 && bufs[k].blockno == n && bufs[k].valid &&
        (bufs[k].dirty || k in touched);
      assert bufs'[k].dev == 1;
    }
  }

  lemma ReferKeeps(bufs: seq<Buf>, order: seq<nat>, disk: seq<Data>, flat: seq<Data>, touched: set<nat>, b: nat)
    requires Good(bufs, order, disk, flat, touched) && b < NBUF
    ensures Good(bufs[b := bufs[b].(refcnt := bufs[b].refcnt + 1)], order, disk, flat, touched)
  {
    UpdateKeeps(bufs, order, disk, flat, touched, b, bufs[b].(refcnt := bufs[b].refcnt + 1));
  }

  lemma RecycleKeeps(bufs: seq<Buf>, order: seq<nat>, disk: seq<Data>, flat: seq<Data>, touched: set<nat>,
                     b: nat, dev: nat, blockno: nat)
    requires Good(bufs, order, disk, flat, touched) && b < NBUF && Recyclable(bufs[b])
    requires forall c :: 0 <= c < NBUF ==> !Holds(bufs[c], dev, blockno)
    ensures Good(bufs[b := Recycled(bufs[b], dev, blockno)], order, disk, flat, touched)
  {
    var bufs' := bufs[b := Recycled(bufs[b], dev, blockno)];
    RingKept(bufs, order, b, bufs'[b]);
    assert Tidy(bufs[b]) && b !in touched;
    forall n | 0 <= n < |flat| && disk[n] != flat[n] ensures HeldBack(bufs', touched, n) {
      var k :| 0 <= k < NBUF && bufs[k].dev == 1 && bufs[k].blockno == n && bufs[k].valid &&
        (bufs[k].dirty || k in touched);
      assert bufs'[k].dev == 1;
    }
    forall i, j | 0 <= i < j < NBUF && bufs'[i].dev != 0
      ensures !(bufs'[i].dev == bufs'[j].dev && bufs'[i].blockno == bufs'[j].blockno)
    {
      assert !Holds(bufs[i], dev, blockno) && !Holds(bufs[j], dev, blockno);
    }
  }

  /** A dirty buffer goes to the disk. */
  lemma FlushKeeps(bufs: seq<Buf>, order: seq<nat>, disk: seq<Data>, flat: seq<Data>, touched: set<nat>, b: nat)
    requires Good(bufs, order, disk, flat, touched) && b < NBUF && bufs[b].dirty && bufs[b].dev == 1
    ensures var n := bufs[b].blockno;
            && n < |disk| && bufs[b].data == flat[n]
            && Good(bufs[b := bufs[b].(dirty := false, valid := true)], order, disk[n := bufs[b].data], flat,
                    touched - {b})
  {
    assert Tidy(bufs[b]);
    var n := bufs[b].blockno;
    var bufs', disk' := bufs[b := bufs[b].(dirty := false, valid := true)], disk[n := bufs[b].data];
    RingKept(bufs, order, b, bufs'[b]);
    forall m | 0 <= m < |flat| && disk'[m] != flat[m] ensures HeldBack(bufs', touched - {b}, m) {
      var k :| 0 <= k < NBUF && bufs[k].dev == 1 && bufs[k].blockno == m && bufs[k].valid &&
        (bufs[k].dirty || k in touched);
      assert bufs'[k].dev == 1;
    }
  }

  /** The block of an invalid buffer is nowhere else in the cache, so the disk has it. */
  lemma InvalidIsAlone(bufs: seq<Buf>, touched: set<nat>, b: nat)
    requires |bufs| == NBUF + 1 && Unique(bufs) && b < NBUF && !bufs[b].valid && bufs[b].dev == 1
    ensures !HeldBack(bufs, touched, bufs[b].blockno)
  {
  }

  /** An invalid buffer is filled from the disk, where the block is up to date. */
  lemma FetchKeeps(bufs: seq<Buf>, order: seq<nat>, disk: seq<Data>, flat: seq<Data>, touched: set<nat>, b: nat)
    requires Good(bufs, order, disk, flat, touched) && b < NBUF && !bufs[b].valid && bufs[b].dev == 1
    requires bufs[b].blockno < |disk|
    ensures var n := bufs[b].blockno;
            && disk[n] == flat[n] && b !in touched && !bufs[b].dirty
            && Good(bufs[b := bufs[b].(data := disk[n], valid := true)], order, disk, flat, touched - {b})
  {
    assert Tidy(bufs[b]);
    var n := bufs[b].blockno;
    var bufs' := bufs[b := bufs[b].(data := disk[n], valid := true)];
    RingKept(bufs, order, b, bufs'[b]);
    InvalidIsAlone(bufs, touched, b);
    assert touched - {b} == touched;
    forall m | 0 <= m < |flat| && disk[m] != flat[m] ensures HeldBack(bufs', touched, m) {
      var k :| 0 <= k < NBUF && bufs[k].dev == 1 && bufs[k].blockno == m && bufs[k].valid &&
        (bufs[k].dirty || k in touched);
      assert bufs'[k].dev == 1;
    }
  }

  lemma ModifyKeeps(bufs: seq<Buf>, order: seq<nat>, disk: seq<Data>, flat: seq<Data>, touched: set<nat>, b: nat,
                    v: Data)
    requires Good(bufs, order, disk, flat, touched) && b < NBUF && bufs[b].locked && bufs[b].valid && bufs[b].dev == 1
    ensures bufs[b].blockno < |flat|
    ensures Good(bufs[b := bufs[b].(data := v)], order, disk, flat[bufs[b].blockno := v], touched + {b})
  {
    assert Tidy(bufs[b]);
    var n := bufs[b].blockno;
    var bufs', flat' := bufs[b := bufs[b].(data := v)], flat[n := v];
    RingKept(bufs, order, b, bufs'[b]);
    forall m | 0 <= m < |flat'| && disk[m] != flat'[m] ensures HeldBack(bufs', touched + {b}, m) {
      if m == n {
        assert bufs'[b].dev == 1 && b in touched + {b};
      } else {
        var k :| 0 <= k < NBUF && bufs[k].dev == 1 && bufs[k].blockno == m && bufs[k].valid &&
          (bufs[k].dirty || k in touched);
        assert bufs'[k].dev == 1;
      }
    }
  }

  lemma PinKeeps(bufs: seq<Buf>, order: seq<nat>, disk: seq<Data>, flat: seq<Data>, touched: set<nat>, b: nat)
    requires Good(bufs, order, disk, flat, touched) && b < NBUF && bufs[b].locked && bufs[b].valid && bufs[b].dev == 1
    ensures Good(bufs[b := bufs[b].(dirty := true)], order, disk, flat, touched - {b})
  {
    assert Tidy(bufs[b]);
    var bufs' := bufs[b := bufs[b].(dirty := true)];
    RingKept(bufs, order, b, bufs'[b]);
    forall m | 0 <= m < |flat| && disk[m] != flat[m] ensures HeldBack(bufs', touched - {b}, m) {
      var k :| 0 <= k < NBUF && bufs[k].dev == 1 && bufs[k].blockno == m && bufs[k].valid &&
        (bufs[k].dirty || k in touched);
      assert bufs'[k].dev == 1;
    }
  }

  lemma NotInRest(order: seq<nat>, k: nat)
    requires k < |order| && forall i, j :: 0 <= i < j < |order| ==> order[i] != order[j]
    ensures order[k] !in Remove(order, k)
  {
  }

  lemma PushFrontSame(bufs: seq<Buf>, b: nat)
    requires b < |bufs| && HEAD < |bufs| && bufs[HEAD].next < |bufs|
    ensures SameButLinks(bufs, PushFront(bufs, b))
  {
  }

  lemma RecencyMoves(order: seq<nat>, released: seq<nat>, clock: nat, k: nat)
    requires Recency(order, released, clock) && k < |order|
    requires forall i, j :: 0 <= i < j < |order| ==> order[i] != order[j]
    ensures Recency([order[k]] + Remove(order, k), released[order[k] := clock], clock + 1)
  {
    var b, rest := order[k], Remove(order, k);
    assert forall i :: 0 <= i < |rest| ==> rest[i] == order[if i < k then i else i + 1];
    NotInRest(order, k);
  }

  lemma AllTidy(bufs: seq<Buf>, disk: seq<Data>, flat: seq<Data>, touched: set<nat>, b: nat)
    requires Agrees(bufs, disk, flat, touched) && b < NBUF
    ensures Tidy(bufs[b])
  {
  }

  /** brelse's splice: the buffer at place k goes to the front, with the newest stamp. */
  lemma MoveToFront(bufs: seq<Buf>, order: seq<nat>, disk: seq<Data>, flat: seq<Data>, touched: set<nat>,
                    released: seq<nat>, clock: nat, k: nat)
    requires Good(bufs, order, disk, flat, touched) && Recency(order, released, clock) && k < |order|
    ensures bufs[order[k]].next < |bufs| && bufs[order[k]].prev < |bufs|
    ensures var u := Unlink(bufs, order[k]);
            && |u| == |bufs| && u[HEAD].next < |u|
            && Good(PushFront(u, order[k]), [order[k]] + Remove(order, k), disk, flat, touched)
            && SameButLinks(bufs, PushFront(u, order[k]))
    ensures |released| == NBUF && Recency([order[k]] + Remove(order, k), released[order[k] := clock], clock + 1)
  {
    hide Unlink, PushFront, Agrees, Unique, Linked;
    UnlinkRing(bufs, order, k);
    UnlinkFields(bufs, order[k]);
    var u := Unlink(bufs, order[k]);
    NotInRest(order, k);
    PushFrontRing(u, Remove(order, k), order[k]);
    PushFrontSame(u, order[k]);
    LinksDoNotMatter(bufs, PushFront(u, order[k]), disk, flat, touched);
    RecencyMoves(order, released, clock, k);
  }

  /** Waits: somebody else has the buffer's sleep lock.  PastDisk: iderw panics. */
  datatype ReadResult = Got(b: nat) | NoBuffers | Waits(b: nat) | PastDisk(b: nat)

  /** A block of a real device is in at most one buffer. */
  lemma OneHolder(bufs: seq<Buf>, dev: nat, blockno: nat)
    requires Unique(bufs) && |bufs| == NBUF + 1 && dev != 0
    ensures forall c, d :: 0 <= c < NBUF && 0 <= d < NBUF ==>
              !(c != d && Holds(bufs[c], dev, blockno) && Holds(bufs[d], dev, blockno))
  {
  }

  /** Every reference is the holder's or that of a process that bget has counted and that has not got
      the buffer's lock yet. */
  ghost predicate Users(bufs: seq<Buf>, waiting: seq<nat>) {
    && |waiting| == NBUF < |bufs|
    && forall b :: 0 <= b < NBUF ==> bufs[b].refcnt == waiting[b] + if bufs[b].locked then 1 else 0
  }

  lemma SameUsers(a: seq<Buf>, b: seq<Buf>, waiting: seq<nat>)
    requires Users(a, waiting) && SameButLinks(a, b)
    ensures Users(b, waiting)
  {
    forall i | 0 <= i < NBUF ensures b[i].refcnt == waiting[i] + if b[i].locked then 1 else 0 {
      assert b[i].(prev := 0, next := 0) == a[i].(prev := 0, next := 0);
    }
  }

  class Bcache {
    var bufs: seq<Buf>     // bcache.buf, with bcache.head last
    var disk: seq<Data>    // memdisk
    ghost var order: seq<nat>
    ghost var flat: seq<Data>
    ghost var touched: set<nat>   // locked buffers changed since they were last handed to the disk or the log
    ghost var released: seq<nat>
    ghost var clock: nat
    ghost var waiting: seq<nat>   // for each buffer, the processes counted in refcnt that do not hold its lock

    ghost predicate Valid() reads this {
      && Ring(bufs, order) && |order| == NBUF && Users(bufs, waiting)
      && Unique(bufs) && Agrees(bufs, disk, flat, touched) && Recency(order, released, clock)
    }

    /** binit: each buffer in turn goes to the front of the list. */
    constructor (disk: seq<Data>)
      ensures Valid() && this.disk == flat == disk && touched == {} && waiting == seq(NBUF, i => 0)
      ensures forall b :: 0 <= b < NBUF ==> bufs[b].refcnt == 0 && !bufs[b].valid
    {
      hide Unique, Agrees;
      var bs := seq(NBUF + 1, i => BLANK.(prev := HEAD, next := HEAD));
      ghost var start, ord: seq<nat> := bs, [];
      var b := 0;
      while b < NBUF
        invariant 0 <= b <= NBUF && Ring(bs, ord) && |ord| == b && SameButLinks(start, bs)
        invariant forall i :: 0 <= i < b ==> ord[i] == b - 1 - i
      {
        PushFrontRing(bs, ord, b);
        bs := PushFront(bs, b);
        ord := [b] + ord;
        b := b + 1;
      }
      BlankAgrees(start, disk);
      LinksDoNotMatter(start, bs, disk, disk, {});
      SameUsers(start, bs, seq(NBUF, i => 0));
      bufs, waiting := bs, seq(NBUF, i => 0);
      this.disk, flat, touched := disk, disk, {};
      order, released, clock := ord, seq(NBUF, i => i), NBUF;
    }

    /** The first loop of bget. */
    method Scan(dev: nat, blockno: nat) returns (b: nat)
      requires Valid()
      ensures b <= HEAD
      ensures b < HEAD ==> Holds(bufs[b], dev, blockno)
      ensures b == HEAD ==> forall c :: 0 <= c < NBUF ==> !Holds(bufs[c], dev, blockno)
    {
      ghost var i := 0;
      b := bufs[HEAD].next;
      while b != HEAD
        invariant 0 <= i <= NBUF && b == At(order, i)
        invariant forall j :: 0 <= j < i ==> !Holds(bufs[order[j]], dev, blockno)
        decreases NBUF - i
      {
        if Holds(bufs[b], dev, blockno) {
          return;
        }
        assert Linked(bufs, order, i);
        b := bufs[b].next;
        i := i + 1;
      }
      forall c | 0 <= c < NBUF ensures !Holds(bufs[c], dev, blockno) {
        var j := AllListed(order, c);
      }
    }

    /** The second loop of bget: from the least recently released end. */
    method ScanBack() returns (b: nat)
      requires Valid()
      ensures b <= HEAD
      ensures b < HEAD ==>
                Recyclable(bufs[b]) && forall c :: 0 <= c < NBUF && Recyclable(bufs[c]) ==> released[b] <= released[c]
      ensures b == HEAD ==> forall c :: 0 <= c < NBUF ==> !Recyclable(bufs[c])
    {
      ghost var i := NBUF - 1;
      b := bufs[HEAD].prev;
      while b != HEAD
        invariant -1 <= i < NBUF && b == At(order, i)
        invariant forall j :: i < j < NBUF ==> !Recyclable(bufs[order[j]])
        decreases i
      {
        if Recyclable(bufs[b]) {
          forall c | 0 <= c < NBUF && Recyclable(bufs[c]) ensures released[b] <= released[c] {
            var j := AllListed(order, c);
          }
          return;
        }
        assert Linked(bufs, order, i);
        b := bufs[b].prev;
        i := i - 1;
      }
      forall c | 0 <= c < NBUF ensures !Recyclable(bufs[c]) {
        var j := AllListed(order, c);
      }
    }

    /** bget up to the release of bcache.lock.  ok is false for the panic "bget: no buffers". */
    method Bget(dev: nat, blockno: nat) returns (ok: bool, b: nat)
      requires Valid()
      modifies this`bufs, this`waiting
      ensures Valid()
      ensures !ok ==> unchanged(this)
      ensures ok ==> b < NBUF && waiting == old(waiting)[b := old(waiting)[b] + 1]
      ensures !ok ==> forall c :: 0 <= c < NBUF ==> !Holds(bufs[c], dev, blockno) && !Recyclable(bufs[c])
      ensures ok ==> b < NBUF && Holds(bufs[b], dev, blockno) && bufs[b].locked == old(bufs[b]).locked
      ensures ok && Holds(old(bufs)[b], dev, blockno) ==>
                bufs == old(bufs)[b := old(bufs)[b].(refcnt := old(bufs)[b].refcnt + 1)]
      ensures ok && !Holds(old(bufs)[b], dev, blockno) ==>
                && Recyclable(old(bufs)[b]) && (forall c :: 0 <= c < NBUF ==> !Holds(old(bufs)[c], dev, blockno))
                && (forall c :: 0 <= c < NBUF && Recyclable(old(bufs)[c]) ==> released[b] <= released[c])
                && bufs == old(bufs)[b := Recycled(old(bufs)[b], dev, blockno)]
    {
      b := Scan(dev, blockno);
      if b != HEAD {
        ReferKeeps(bufs, order, disk, flat, touched, b);
        bufs := bufs[b := bufs[b].(refcnt := bufs[b].refcnt + 1)];
        waiting := waiting[b := waiting[b] + 1];
        return true, b;
      }
      b := ScanBack();
      if b != HEAD {
        RecycleKeeps(bufs, order, disk, flat, touched, b, dev, blockno);
        bufs := bufs[b := Recycled(bufs[b], dev, blockno)];
        waiting := waiting[b := waiting[b] + 1];
        return true, b;
      }
      return false, 0;
    }

    /** acquiresleep by a process that bget has counted, on a buffer whose lock is free. */
    method Lock(b: nat)
      requires Valid() && b < NBUF && !bufs[b].locked && bufs[b].refcnt > 0
      modifies this`bufs, this`waiting
      ensures Valid() && bufs == old(bufs)[b := old(bufs)[b].(locked := true)]
      ensures old(waiting)[b] > 0 && waiting == old(waiting)[b := old(waiting)[b] - 1]
    {
      UpdateKeeps(bufs, order, disk, flat, touched, b, bufs[b].(locked := true));
      bufs := bufs[b := bufs[b].(locked := true)];
      waiting := waiting[b := waiting[b] - 1];
    }

    /** iderw of memide.c.  ok is false for its panics. */
    method Iderw(b: nat) returns (ok: bool)
      requires Valid() && b < NBUF
      modifies this`bufs, this`disk, this`touched
      ensures Valid()
      ensures ok <==> old(bufs)[b].locked && !(old(bufs)[b].valid && !old(bufs)[b].dirty)
                      && old(bufs)[b].dev == 1 && old(bufs)[b].blockno < |old(disk)|
      ensures !ok ==> unchanged(this)
      ensures ok ==>
                var n := old(bufs)[b].blockno;
                && bufs == old(bufs)[b := old(bufs)[b].(valid := true, dirty := false, data := flat[n])]
                && disk == old(disk)[n := flat[n]] && touched == old(touched) - {b}
    {
      var x := bufs[b];
      if !x.locked || (x.valid && !x.dirty) || x.dev != 1 || x.blockno >= |disk| {
        return false;
      }
      if x.dirty {
        FlushKeeps(bufs, order, disk, flat, touched, b);
        bufs := bufs[b := x.(dirty := false, valid := true)];
        disk := disk[x.blockno := x.data];
        touched := touched - {b};
        assert disk == old(disk)[x.blockno := flat[x.blockno]];
      } else {
        FetchKeeps(bufs, order, disk, flat, touched, b);
        bufs := bufs[b := x.(data := disk[x.blockno], valid := true)];
        touched := touched - {b};
        assert disk == old(disk)[x.blockno := flat[x.blockno]];
      }
      return true;
    }

    /** bread up to the point where it has the buffer's sleep lock or must wait for it: the contents are
        those of the flat disk. */
    method Bread(dev: nat, blockno: nat) returns (r: ReadResult)
      requires Valid() && dev == 1
      modifies this`bufs, this`disk, this`touched, this`waiting
      ensures Valid() && disk == old(disk) && touched == old(touched)
      ensures r == NoBuffers <==>
                forall c :: 0 <= c < NBUF ==> !Holds(old(bufs)[c], dev, blockno) && !Recyclable(old(bufs)[c])
      ensures r == NoBuffers ==> unchanged(this)
      ensures r.Waits? <==> exists c :: 0 <= c < NBUF && Holds(old(bufs)[c], dev, blockno) && old(bufs)[c].locked
      ensures r.Waits? ==> && r.b < NBUF && Holds(old(bufs)[r.b], dev, blockno) && old(bufs)[r.b].locked
                           && bufs == old(bufs)[r.b := old(bufs)[r.b].(refcnt := old(bufs)[r.b].refcnt + 1)]
                           && waiting == old(waiting)[r.b := old(waiting)[r.b] + 1]
      ensures r.PastDisk? ==> blockno >= |disk|
      ensures r.Got? ==> blockno < |disk| && r.b < NBUF && waiting == old(waiting)
      ensures r.Got? ==> bufs[r.b].refcnt == 1 + if Holds(old(bufs)[r.b], 1, blockno) then old(bufs)[r.b].refcnt else 0
      ensures r.Got? && Holds(old(bufs)[r.b], 1, blockno) ==> bufs[r.b].dirty == old(bufs)[r.b].dirty
      ensures r.Got? ==> && r.b < NBUF && Holds(bufs[r.b], 1, blockno) && bufs[r.b].locked && bufs[r.b].valid
                         && bufs[r.b].data == flat[blockno] && r.b !in touched
                         && (forall c :: 0 <= c < NBUF && c != r.b ==> bufs[c] == old(bufs)[c])
                         && !(old(bufs)[r.b].refcnt > 0 && !Holds(old(bufs)[r.b], 1, blockno))
                         && !(old(bufs)[r.b].dirty && !Holds(old(bufs)[r.b], 1, blockno))
    {
      hide Linked, Recency, Ring;
      var ok, b := Bget(dev, blockno);
      if !ok {
        return NoBuffers;
      }
      assert Holds(old(bufs)[b], dev, blockno) || Recyclable(old(bufs)[b]);
      OneHolder(old(bufs), dev, blockno);
      if bufs[b].locked {
        return Waits(b);
      }
      AllTidy(bufs, disk, flat, touched, b);
      ok := FillLocked(b);
      r := if ok then Got(b) else PastDisk(b);
    }

    /** The rest of bread, once acquiresleep lets it through: lock, and read the block if nobody has. */
    method FillLocked(b: nat) returns (ok: bool)
      requires Valid() && b < NBUF && !bufs[b].locked && bufs[b].dev == 1 && bufs[b].refcnt > 0
      modifies this`bufs, this`disk, this`touched, this`waiting
      ensures Valid() && disk == old(disk) && touched == old(touched) && b !in touched
      ensures bufs == old(bufs)[b := bufs[b]] && bufs[b].locked
      ensures bufs[b] == old(bufs)[b].(locked := true, valid := bufs[b].valid, data := bufs[b].data)
      ensures old(bufs)[b].valid ==> bufs[b].valid && bufs[b].data == old(bufs)[b].data
      ensures old(waiting)[b] > 0 && waiting == old(waiting)[b := old(waiting)[b] - 1]
      ensures bufs[b].dev == 1 && bufs[b].blockno == old(bufs)[b].blockno && |flat| == |disk|
      ensures ok <==> bufs[b].blockno < |disk|
      ensures ok ==> bufs[b].valid && bufs[b].data == flat[bufs[b].blockno]
    {
      hide Linked, Recency, Unique;
      Lock(b);
      ok := true;
      if !bufs[b].valid {
        InvalidIsAlone(bufs, touched, b);
        ok := Iderw(b);
        assert disk == old(disk) && touched == old(touched);
      }
    }

    /** The holder of a buffer changes its contents. */
    method Modify(b: nat, v: Data)
      requires Valid() && b < NBUF && bufs[b].locked && bufs[b].valid && bufs[b].dev == 1
      modifies this`bufs, this`flat, this`touched
      ensures Valid() && bufs == old(bufs)[b := old(bufs)[b].(data := v)]
      ensures bufs[b].blockno < |old(flat)| && flat == old(flat)[bufs[b].blockno := v]
      ensures touched == old(touched) + {b}
    {
      ModifyKeeps(bufs, order, disk, flat, touched, b, v);
      flat := flat[bufs[b].blockno := v];
      bufs := bufs[b := bufs[b].(data := v)];
      touched := touched + {b};
    }

    /** log_write's b->flags |= B_DIRTY: the cache keeps the block until commit writes it. */
    method Pin(b: nat)
      requires Valid() && b < NBUF && bufs[b].locked && bufs[b].valid && bufs[b].dev == 1
      modifies this`bufs, this`touched
      ensures Valid() && bufs == old(bufs)[b := old(bufs)[b].(dirty := true)] && touched == old(touched) - {b}
    {
      PinKeeps(bufs, order, disk, flat, touched, b);
      bufs := bufs[b := bufs[b].(dirty := true)];
      touched := touched - {b};
    }

    /** bwrite: the block reaches the disk. */
    method Bwrite(b: nat)
      requires Valid() && b < NBUF && bufs[b].locked && bufs[b].valid && bufs[b].dev == 1 && bufs[b].blockno < |disk|
      modifies this`bufs, this`disk, this`touched
      ensures Valid() && bufs == old(bufs)[b := old(bufs)[b].(dirty := false)]
      ensures disk == old(disk)[bufs[b].blockno := bufs[b].data] && touched == old(touched) - {b}
    {
      assert bufs[b].data == flat[bufs[b].blockno];
      Pin(b);
      var _ := Iderw(b);
    }

    /** brelse: the last release moves the buffer to the front of the list. */
    method Brelse(b: nat)
      requires Valid() && b < NBUF && bufs[b].locked && b !in touched
      modifies this`bufs, this`order, this`released, this`clock
      ensures Valid()
      ensures SameButLinks(old(bufs)[b := old(bufs)[b].(locked := false, refcnt := old(bufs)[b].refcnt - 1)], bufs)
      ensures if bufs[b].refcnt == 0
              then order[0] == b && released[b] == old(clock) && clock == old(clock) + 1
              else order == old(order) && released == old(released) && clock == old(clock)
    {
      hide Unlink, PushFront, Agrees, Unique, Linked, Recency;
      AllTidy(bufs, disk, flat, touched, b);
      var x := bufs[b].(locked := false, refcnt := bufs[b].refcnt - 1);
      UpdateKeeps(bufs, order, disk, flat, touched, b, x);
      bufs := bufs[b := x];
      if bufs[b].refcnt == 0 {
        ghost var k := AllListed(order, b);
        MoveToFront(bufs, order, disk, flat, touched, released, clock, k);
        SameUsers(bufs, PushFront(Unlink(bufs, b), b), waiting);
        bufs := Unlink(bufs, b);
        bufs := PushFront(bufs, b);
        order := [b] + Remove(order, k);
        released, clock := released[b := clock], clock + 1;
      }
    }
  }
}
