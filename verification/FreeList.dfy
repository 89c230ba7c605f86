/** The free list of umalloc.c as a value: blocks in address order, none touching the next.
    Addresses and sizes count header-sized units of 8 bytes. */
module FreeList {

  datatype Blk = Blk(addr: nat, units: nat)

  predicate Apart(a: Blk, b: Blk) {
    a.addr + a.units <= b.addr || b.addr + b.units <= a.addr
  }

  /** nodes[0] is the static header base, of size 0 and below the heap. */
  ghost predicate Ordered(nodes: seq<Blk>) {
    && |nodes| >= 1 && nodes[0].units == 0 && 0 < nodes[0].addr
    && (forall i :: 1 <= i < |nodes| ==> 0 < nodes[i].units)
    && (forall i, j :: 0 <= i < j < |nodes| ==> nodes[i].addr + nodes[i].units < nodes[j].addr)
  }

  function Total(s: seq<Blk>): nat {
    if s == [] then 0 else s[0].units + Total(s[1..])
  }

  lemma {:induction false} TotalConcat(a: seq<Blk>, b: seq<Blk>)
    ensures Total(a + b) == Total(a) + Total(b)
  {
    if a == [] {
      assert a + b == b;
    } else {
      assert (a + b)[1..] == a[1..] + b;
      TotalConcat(a[1..], b);
    }
  }

  lemma TotalSplit(s: seq<Blk>, k: nat)
    requires k < |s|
    ensures Total(s) == Total(s[..k]) + s[k].units + Total(s[k + 1..])
  {
    assert s == s[..k] + s[k..];
    TotalConcat(s[..k], s[k..]);
    assert s[k..][1..] == s[k + 1..];
  }

  /** Where a block belongs: after nodes[k] and before nodes[k + 1]. */
  ghost predicate Place(nodes: seq<Blk>, k: nat, addr: nat) {
    && k < |nodes| && nodes[k].addr < addr
    && (k + 1 < |nodes| ==> addr < nodes[k + 1].addr)
  }

  /** Block b lies in the gap after nodes[k]. */
  ghost predicate Fits(nodes: seq<Blk>, k: nat, b: Blk) {
    && Place(nodes, k, b.addr) && b.units > 0
    && nodes[k].addr + nodes[k].units <= b.addr
    && (k + 1 < |nodes| ==> b.addr + b.units <= nodes[k + 1].addr)
  }

  predicate JoinsLower(nodes: seq<Blk>, k: nat, b: Blk)
    requires k < |nodes|
  {
    nodes[k].addr + nodes[k].units == b.addr
  }

  predicate JoinsUpper(nodes: seq<Blk>, k: nat, b: Blk) {
    k + 1 < |nodes| && b.addr + b.units == nodes[k + 1].addr
  }

  /** The free block that results from putting b after nodes[k]. */
  function Merged(nodes: seq<Blk>, k: nat, b: Blk): Blk
    requires k < |nodes|
  {
    Blk(if JoinsLower(nodes, k, b) then nodes[k].addr else b.addr,
        b.units + (if JoinsLower(nodes, k, b) then nodes[k].units else 0)
                + (if JoinsUpper(nodes, k, b) then nodes[k + 1].units else 0))
  }

  /** The nodes from Lo to Hi are absorbed. */
  function Lo(nodes: seq<Blk>, k: nat, b: Blk): (l: nat)
    requires k < |nodes|
    ensures l <= k + 1 <= |nodes|
  {
    if JoinsLower(nodes, k, b) then k else k + 1
  }

  function Hi(nodes: seq<Blk>, k: nat, b: Blk): (h: nat)
    requires k < |nodes|
    ensures h <= |nodes|
  {
    if JoinsUpper(nodes, k, b) then k + 2 else k + 1
  }

  /** free: the block goes back, coalesced with its free neighbours. */
  function Insert(nodes: seq<Blk>, k: nat, b: Blk): seq<Blk>
    requires k < |nodes|
  {
    nodes[..Lo(nodes, k, b)] + [Merged(nodes, k, b)] + nodes[Hi(nodes, k, b)..]
  }

  /** malloc: n units from the end of nodes[k], or all of it. */
  function Take(nodes: seq<Blk>, k: nat, n: nat): seq<Blk>
    requires k < |nodes| && n <= nodes[k].units
  {
    if nodes[k].units == n then nodes[..k] + nodes[k + 1..]
    else nodes[k := Blk(nodes[k].addr, nodes[k].units - n)]
  }

  function Taken(nodes: seq<Blk>, k: nat, n: nat): Blk
    requires k < |nodes| && n <= nodes[k].units
  {
    Blk(nodes[k].addr + nodes[k].units - n, n)
  }

  lemma InsertIndex(nodes: seq<Blk>, k: nat, b: Blk)
    requires k < |nodes|
    ensures var lo, hi, r := Lo(nodes, k, b), Hi(nodes, k, b), Insert(nodes, k, b);
            && |r| == lo + 1 + |nodes| - hi && r[lo] == Merged(nodes, k, b)
            && (forall j :: 0 <= j < lo ==> r[j] == nodes[j])
            && (forall j :: lo < j < |r| ==> r[j] == nodes[j - lo - 1 + hi])
  {
  }

  lemma MergedBounds(nodes: seq<Blk>, k: nat, b: Blk)
    requires Ordered(nodes) && Fits(nodes, k, b)
    ensures forall i :: 0 <= i < Lo(nodes, k, b) ==> nodes[i].addr + nodes[i].units < Merged(nodes, k, b).addr
    ensures forall o :: Hi(nodes, k, b) <= o < |nodes| ==>
              Merged(nodes, k, b).addr + Merged(nodes, k, b).units < nodes[o].addr
    ensures 1 <= Lo(nodes, k, b) <= Hi(nodes, k, b) && Merged(nodes, k, b).units > 0
  {
  }

  lemma InsertOrdered(nodes: seq<Blk>, k: nat, b: Blk)
    requires Ordered(nodes) && Fits(nodes, k, b)
    ensures Ordered(Insert(nodes, k, b)) && Insert(nodes, k, b)[0] == nodes[0]
  {
    hide Insert, Merged, JoinsLower, JoinsUpper, Lo, Hi;
    InsertIndex(nodes, k, b);
    MergedBounds(nodes, k, b);
    var lo, hi, r := Lo(nodes, k, b), Hi(nodes, k, b), Insert(nodes, k, b);
    forall i, j | 0 <= i < j < |r| ensures r[i].addr + r[i].units < r[j].addr {
    }
  }

  lemma InsertTotal(nodes: seq<Blk>, k: nat, b: Blk)
    requires k < |nodes|
    ensures Total(Insert(nodes, k, b)) == Total(nodes) + b.units
  {
    hide Total, JoinsLower, JoinsUpper, Merged;
    var lo, hi, m := Lo(nodes, k, b), Hi(nodes, k, b), Merged(nodes, k, b);
    TotalThree(nodes[..lo], [m], nodes[hi..]);
    SplitThree(nodes, lo, hi);
    MiddleTotal(nodes, k, b);
    TotalOne(m);
  }

  lemma TotalThree(a: seq<Blk>, b: seq<Blk>, c: seq<Blk>)
    ensures Total(a + b + c) == Total(a) + Total(b) + Total(c)
  {
    TotalConcat(a + b, c);
    TotalConcat(a, b);
  }

  lemma SplitThree(s: seq<Blk>, lo: nat, hi: nat)
    requires lo <= hi <= |s|
    ensures Total(s) == Total(s[..lo]) + Total(s[lo..hi]) + Total(s[hi..])
  {
    assert s == s[..lo] + s[lo..hi] + s[hi..];
    TotalThree(s[..lo], s[lo..hi], s[hi..]);
  }

  lemma TotalOne(b: Blk)
    ensures Total([b]) == b.units && Total([]) == 0
  {
  }

  lemma MiddleTotal(nodes: seq<Blk>, k: nat, b: Blk)
    requires k < |nodes|
    ensures Merged(nodes, k, b).units == b.units + Total(nodes[Lo(nodes, k, b)..Hi(nodes, k, b)])
  {
    hide Total;
    var lo, hi := Lo(nodes, k, b), Hi(nodes, k, b);
    TotalOne(nodes[k]);
    if JoinsUpper(nodes, k, b) {
      TotalOne(nodes[k + 1]);
      if JoinsLower(nodes, k, b) {
        assert nodes[lo..hi] == [nodes[k]] + [nodes[k + 1]];
        TotalConcat([nodes[k]], [nodes[k + 1]]);
      } else {
        assert nodes[lo..hi] == [nodes[k + 1]];
      }
    } else if JoinsLower(nodes, k, b) {
      assert nodes[lo..hi] == [nodes[k]];
    } else {
      assert nodes[lo..hi] == [];
    }
  }

  lemma TakeOrdered(nodes: seq<Blk>, k: nat, n: nat)
    requires Ordered(nodes) && 1 <= k < |nodes| && 0 < n <= nodes[k].units
    ensures Ordered(Take(nodes, k, n)) && Take(nodes, k, n)[0] == nodes[0]
  {
    var r := Take(nodes, k, n);
    if nodes[k].units == n {
      assert forall i :: 0 <= i < |r| ==> r[i] == nodes[if i < k then i else i + 1];
    }
  }

  lemma TakeTotal(nodes: seq<Blk>, k: nat, n: nat)
    requires k < |nodes| && n <= nodes[k].units
    ensures Total(Take(nodes, k, n)) == Total(nodes) - n
  {
    hide Total;
    TotalSplit(nodes, k);
    if nodes[k].units == n {
      TotalConcat(nodes[..k], nodes[k + 1..]);
    } else {
      var r := Take(nodes, k, n);
      TotalSplit(r, k);
      assert r[..k] == nodes[..k] && r[k + 1..] == nodes[k + 1..];
    }
  }

  /** Freeing a block that was just carved off gives back the very same free list. */
  lemma FreeUndoesTake(nodes: seq<Blk>, k: nat, n: nat)
    requires Ordered(nodes) && 1 <= k < |nodes| && 0 < n <= nodes[k].units
    ensures exists j: nat :: Fits(Take(nodes, k, n), j, Taken(nodes, k, n))
                        && Insert(Take(nodes, k, n), j, Taken(nodes, k, n)) == nodes
  {
    hide Insert, Ordered;
    if nodes[k].units == n {
      UndoWhole(nodes, k);
      assert Taken(nodes, k, n) == nodes[k];
      assert Fits(Take(nodes, k, n), k - 1, Taken(nodes, k, n));
    } else {
      UndoTail(nodes, k, n);
      assert Fits(Take(nodes, k, n), k, Taken(nodes, k, n));
    }
  }

  lemma UndoWhole(nodes: seq<Blk>, k: nat)
    requires Ordered(nodes) && 1 <= k < |nodes|
    ensures Fits(nodes[..k] + nodes[k + 1..], k - 1, nodes[k])
    ensures Insert(nodes[..k] + nodes[k + 1..], k - 1, nodes[k]) == nodes
  {
    var r, below, above := nodes[..k] + nodes[k + 1..], nodes[..k], nodes[k + 1..];
    Neighbours(nodes, k);
    hide Ordered;
    assert r[k - 1] == nodes[k - 1] && (k < |r| ==> r[k] == nodes[k + 1]);
    assert Merged(r, k - 1, nodes[k]) == nodes[k];
    assert r[..k] == below && r[k..] == above;
    assert nodes == below + [nodes[k]] + above;
  }

  lemma Neighbours(nodes: seq<Blk>, k: nat)
    requires Ordered(nodes) && 1 <= k < |nodes|
    ensures nodes[k - 1].addr + nodes[k - 1].units < nodes[k].addr && nodes[k].units > 0
    ensures k + 1 < |nodes| ==> nodes[k].addr + nodes[k].units < nodes[k + 1].addr
  {
  }

  lemma UndoTail(nodes: seq<Blk>, k: nat, n: nat)
    requires Ordered(nodes) && 1 <= k < |nodes| && 0 < n < nodes[k].units
    ensures var r, b := nodes[k := Blk(nodes[k].addr, nodes[k].units - n)], Blk(nodes[k].addr + nodes[k].units - n, n);
            Fits(r, k, b) && Insert(r, k, b) == nodes
  {
    var r, b := nodes[k := Blk(nodes[k].addr, nodes[k].units - n)], Blk(nodes[k].addr + nodes[k].units - n, n);
    assert JoinsLower(r, k, b) && !JoinsUpper(r, k, b);
    assert Merged(r, k, b) == nodes[k];
    assert r[..k] == nodes[..k] && r[k + 1..] == nodes[k + 1..];
  }

  // ---- Free and allocated blocks together ----

  /** Every allocated block is apart from every other one and from every free block, and all lie
      between base and the end of the memory obtained so far. */
  ghost predicate Separate(nodes: seq<Blk>, live: seq<Blk>, brk: nat) {
    && |nodes| >= 1
    && (forall i :: 0 <= i < |live| ==>
          0 < live[i].units && nodes[0].addr < live[i].addr && live[i].addr + live[i].units <= brk)
    && (forall i, j :: 0 <= i < j < |live| ==> Apart(live[i], live[j]))
    && (forall i, j :: 0 <= i < |live| && 1 <= j < |nodes| ==> Apart(live[i], nodes[j]))
    && (forall j :: 0 <= j < |nodes| ==> nodes[j].addr + nodes[j].units <= brk)
  }

  lemma LiveFits(nodes: seq<Blk>, live: seq<Blk>, brk: nat, i: nat, k: nat)
    requires Ordered(nodes) && Separate(nodes, live, brk) && i < |live| && Place(nodes, k, live[i].addr)
    ensures Fits(nodes, k, live[i])
  {
    if k >= 1 { assert Apart(live[i], nodes[k]); }
    if k + 1 < |nodes| { assert Apart(live[i], nodes[k + 1]); }
  }

  /** Something apart from both neighbours and from b stays apart from their union. */
  lemma InsertSeparate(nodes: seq<Blk>, live: seq<Blk>, brk: nat, i: nat, k: nat)
    requires Ordered(nodes) && Separate(nodes, live, brk) && i < |live| && Fits(nodes, k, live[i])
    ensures Separate(Insert(nodes, k, live[i]), live[..i] + live[i + 1..], brk)
  {
    hide Insert, Apart, Ordered;
    var b, rest, r := live[i], live[..i] + live[i + 1..], Insert(nodes, k, live[i]);
    InsertIndex(nodes, k, b);
    assert forall x :: 0 <= x < |rest| ==> rest[x] == live[if x < i then x else x + 1];
    forall x, j | 0 <= x < |rest| && 1 <= j < |r| ensures Apart(rest[x], r[j]) {
      InsertApart(nodes, live, brk, i, k, if x < i then x else x + 1, j);
    }
  }

  lemma InsertApart(nodes: seq<Blk>, live: seq<Blk>, brk: nat, i: nat, k: nat, l: nat, j: nat)
    requires Ordered(nodes) && Separate(nodes, live, brk) && i < |live| && Fits(nodes, k, live[i])
    requires l < |live| && l != i && 1 <= j < |Insert(nodes, k, live[i])|
    ensures Apart(live[l], Insert(nodes, k, live[i])[j])
  {
    hide Insert, Apart, Ordered;
    InsertIndex(nodes, k, live[i]);
    var lo, hi := Lo(nodes, k, live[i]), Hi(nodes, k, live[i]);
    if j < lo { assert Apart(live[l], nodes[j]); }
    else if j > lo { assert Apart(live[l], nodes[j - lo - 1 + hi]); }
    else { MergedApart(nodes, live, brk, i, l, k); }
  }

  lemma MergedApart(nodes: seq<Blk>, live: seq<Blk>, brk: nat, i: nat, l: nat, k: nat)
    requires Ordered(nodes) && Separate(nodes, live, brk) && i < |live| && l < |live| && l != i
    requires Fits(nodes, k, live[i])
    ensures Apart(live[l], Merged(nodes, k, live[i]))
  {
    assert if l < i then Apart(live[l], live[i]) else Apart(live[i], live[l]);
    if k >= 1 { assert Apart(live[l], nodes[k]); }
    if k + 1 < |nodes| { assert Apart(live[l], nodes[k + 1]); }
  }

  lemma TakeSeparate(nodes: seq<Blk>, live: seq<Blk>, brk: nat, k: nat, n: nat)
    requires Ordered(nodes) && Separate(nodes, live, brk) && 1 <= k < |nodes| && 0 < n <= nodes[k].units
    ensures Separate(Take(nodes, k, n), live + [Taken(nodes, k, n)], brk)
  {
    var r, all, b := Take(nodes, k, n), live + [Taken(nodes, k, n)], Taken(nodes, k, n);
    assert nodes[0].addr < nodes[k].addr;
    assert nodes[k].units == n ==> forall i :: 0 <= i < |r| ==> r[i] == nodes[if i < k then i else i + 1];
    forall x, j | 0 <= x < |all| && 1 <= j < |r| ensures Apart(all[x], r[j]) {
      var o := if nodes[k].units == n && j >= k then j + 1 else j;
      assert r[j].addr == nodes[o].addr && r[j].units <= nodes[o].units;
      if x < |live| { assert Apart(live[x], nodes[o]); }
    }
    forall x, y | 0 <= x < y < |all| ensures Apart(all[x], all[y]) {
      if y == |live| { assert Apart(live[x], nodes[k]); }
    }
  }
}
