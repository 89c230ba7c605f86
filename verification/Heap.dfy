/** malloc and free of umalloc.c, working in place on the headers of a circular free list. */
module Heap {
  import opened Common
  import opened FreeList

  const HEADER: nat := 8              // sizeof(Header)
  const INTMAX: nat := 0x7fff_ffff
  const MINUNITS: nat := 4096

  // ---- The links in memory ----

  function NextAddr(nodes: seq<Blk>, i: nat): nat
    requires i < |nodes|
  {
    if i + 1 < |nodes| then nodes[i + 1].addr else nodes[0].addr
  }

  ghost predicate NodeOk(nodes: seq<Blk>, ptr: map<nat, nat>, size: map<nat, nat>, i: nat)
    requires i < |nodes|
  {
    var a := nodes[i].addr;
    a in ptr && a in size && size[a] == nodes[i].units && ptr[a] == NextAddr(nodes, i)
  }

  /** Following ptr from any node visits all nodes in address order, with one wrap at the end. */
  ghost predicate Ring(nodes: seq<Blk>, ptr: map<nat, nat>, size: map<nat, nat>) {
    forall i :: 0 <= i < |nodes| ==> NodeOk(nodes, ptr, size, i)
  }

  ghost predicate HeadersKept(live: seq<Blk>, size: map<nat, nat>) {
    forall i :: 0 <= i < |live| ==> live[i].addr in size && size[live[i].addr] == live[i].units
  }

  lemma {:induction false} FindPlace(nodes: seq<Blk>, addr: nat, n: nat) returns (k: nat)
    requires Ordered(nodes) && nodes[0].addr < addr && 1 <= n <= |nodes|
    requires n == |nodes| || addr < nodes[n].addr
    requires forall i :: 0 <= i < |nodes| ==> nodes[i].addr != addr
    ensures Place(nodes, k, addr)
    decreases n
  {
    if nodes[n - 1].addr < addr {
      k := n - 1;
    } else {
      k := FindPlace(nodes, addr, n - 1);
    }
  }

  // ---- The header writes of free, given p = nodes[k] ----

  /** bp->s.size after the first test, then p->s.size after the second. */
  function FreeSize(size: map<nat, nat>, p: nat, next: nat, b: Blk, up: bool, low: bool): map<nat, nat>
    requires p in size && next in size
  {
    var size1 := size[b.addr := if up then b.units + size[next] else b.units];
    if low then size1[p := size1[p] + size1[b.addr]] else size1
  }

  function FreePtr(ptr: map<nat, nat>, p: nat, b: Blk, up: bool, low: bool): map<nat, nat>
    requires p in ptr && ptr[p] in ptr
  {
    var ptr1 := ptr[b.addr := if up then ptr[ptr[p]] else ptr[p]];
    if low then ptr1[p := ptr1[b.addr]] else ptr1[p := b.addr]
  }

  lemma AroundPlace(nodes: seq<Blk>, ptr: map<nat, nat>, size: map<nat, nat>, k: nat)
    requires Ordered(nodes) && Ring(nodes, ptr, size) && k < |nodes|
    ensures var p := nodes[k].addr;
            && p in ptr && p in size && ptr[p] == NextAddr(nodes, k) == nodes[After(|nodes|, k)].addr
            && size[p] == nodes[k].units
            && ptr[p] in ptr && ptr[p] in size
            && (k + 1 < |nodes| ==> ptr[ptr[p]] == NextAddr(nodes, k + 1) && size[ptr[p]] == nodes[k + 1].units)
  {
    assert NodeOk(nodes, ptr, size, k);
    assert NodeOk(nodes, ptr, size, if k + 1 < |nodes| then k + 1 else 0);
  }

  /** A node that free does not write. */
  lemma FreeOther(nodes: seq<Blk>, ptr: map<nat, nat>, size: map<nat, nat>, k: nat, b: Blk, o: nat)
    requires Ordered(nodes) && Ring(nodes, ptr, size) && Fits(nodes, k, b) && o < |nodes| && o != k
    ensures var p := nodes[k].addr;
            var a := nodes[o].addr;
            && p in ptr && p in size && ptr[p] in ptr && ptr[p] in size
            && var size2 := FreeSize(size, p, ptr[p], b, JoinsUpper(nodes, k, b), JoinsLower(nodes, k, b));
               var ptr2 := FreePtr(ptr, p, b, JoinsUpper(nodes, k, b), JoinsLower(nodes, k, b));
               a in ptr2 && a in size2 && size2[a] == nodes[o].units && ptr2[a] == NextAddr(nodes, o)
  {
    AroundPlace(nodes, ptr, size, k);
    assert NodeOk(nodes, ptr, size, o);
    assert nodes[o].addr != b.addr && nodes[o].addr != nodes[k].addr;
  }

  lemma FreeNode(nodes: seq<Blk>, ptr: map<nat, nat>, size: map<nat, nat>, k: nat, b: Blk, i: nat)
    requires Ordered(nodes) && Ring(nodes, ptr, size) && Fits(nodes, k, b) && i < |Insert(nodes, k, b)|
    requires var p := nodes[k].addr; p in ptr && p in size && ptr[p] in ptr && ptr[p] in size
    ensures var p := nodes[k].addr;
            NodeOk(Insert(nodes, k, b), FreePtr(ptr, p, b, JoinsUpper(nodes, k, b), JoinsLower(nodes, k, b)),
                   FreeSize(size, p, ptr[p], b, JoinsUpper(nodes, k, b), JoinsLower(nodes, k, b)), i)
  {
    hide Insert, Ring, Ordered;
    InsertIndex(nodes, k, b);
    InsertOrdered(nodes, k, b);
    AroundPlace(nodes, ptr, size, k);
    var lo, hi := Lo(nodes, k, b), Hi(nodes, k, b);
    if i < lo && i != k {
      FreeOther(nodes, ptr, size, k, b, i);
    } else if i > lo {
      FreeOther(nodes, ptr, size, k, b, i - lo - 1 + hi);
    }
  }

  lemma FreeRing(nodes: seq<Blk>, ptr: map<nat, nat>, size: map<nat, nat>, k: nat, b: Blk)
    requires Ordered(nodes) && Ring(nodes, ptr, size) && Fits(nodes, k, b)
    ensures var p := nodes[k].addr;
            && p in ptr && p in size && ptr[p] in ptr && ptr[p] in size
            && Ring(Insert(nodes, k, b), FreePtr(ptr, p, b, JoinsUpper(nodes, k, b), JoinsLower(nodes, k, b)),
                    FreeSize(size, p, ptr[p], b, JoinsUpper(nodes, k, b), JoinsLower(nodes, k, b)))
  {
    hide Insert, Ordered;
    AroundPlace(nodes, ptr, size, k);
    var p := nodes[k].addr;
    var ptr2 := FreePtr(ptr, p, b, JoinsUpper(nodes, k, b), JoinsLower(nodes, k, b));
    var size2 := FreeSize(size, p, ptr[p], b, JoinsUpper(nodes, k, b), JoinsLower(nodes, k, b));
    var r := Insert(nodes, k, b);
    forall i | 0 <= i < |r| ensures NodeOk(r, ptr2, size2, i) {
      FreeNode(nodes, ptr, size, k, b, i);
    }
  }

  /** malloc takes all of nodes[k]: its predecessor skips it. */
  lemma TakeAllRing(nodes: seq<Blk>, ptr: map<nat, nat>, size: map<nat, nat>, k: nat)
    requires Ordered(nodes) && Ring(nodes, ptr, size) && 1 <= k < |nodes|
    ensures var p, prev := nodes[k].addr, nodes[k - 1].addr;
            p in ptr && prev in ptr && Ring(nodes[..k] + nodes[k + 1..], ptr[prev := ptr[p]], size)
  {
    hide Ordered;
    var p, prev, r := nodes[k].addr, nodes[k - 1].addr, nodes[..k] + nodes[k + 1..];
    assert NodeOk(nodes, ptr, size, k) && NodeOk(nodes, ptr, size, k - 1);
    assert forall i :: 0 <= i < |r| ==> r[i] == nodes[if i < k then i else i + 1];
    var ptr' := ptr[prev := ptr[p]];
    forall i | 0 <= i < |r| ensures NodeOk(r, ptr', size, i) {
      var o := if i < k then i else i + 1;
      assert NodeOk(nodes, ptr, size, o);
      NodesDistinct(nodes, o, k - 1);
    }
  }

  /** malloc takes the tail of nodes[k]: a new header appears inside it. */
  lemma TakeTailRing(nodes: seq<Blk>, ptr: map<nat, nat>, size: map<nat, nat>, k: nat, n: nat)
    requires Ordered(nodes) && Ring(nodes, ptr, size) && 1 <= k < |nodes| && 0 < n < nodes[k].units
    ensures var p, left := nodes[k].addr, nodes[k].units - n;
            Ring(nodes[k := Blk(p, left)], ptr, size[p := left][p + left := n])
  {
    var p, left := nodes[k].addr, nodes[k].units - n;
    var r, size' := nodes[k := Blk(p, left)], size[p := left][p + left := n];
    forall i | 0 <= i < |r| ensures NodeOk(r, ptr, size', i) {
      assert NodeOk(nodes, ptr, size, i);
      assert nodes[i].addr != p + left && (i != k ==> nodes[i].addr != p);
    }
  }

  lemma FreeHeaders(nodes: seq<Blk>, live: seq<Blk>, brk: nat, ptr: map<nat, nat>, size: map<nat, nat>, i: nat, k: nat)
    requires Ordered(nodes) && Ring(nodes, ptr, size) && Separate(nodes, live, brk) && HeadersKept(live, size)
    requires i < |live| && Fits(nodes, k, live[i])
    requires var p := nodes[k].addr; p in ptr && p in size && ptr[p] in ptr && ptr[p] in size
    ensures var p, b := nodes[k].addr, live[i];
            HeadersKept(live[..i] + live[i + 1..],
                        FreeSize(size, p, ptr[p], b, JoinsUpper(nodes, k, b), JoinsLower(nodes, k, b)))
  {
    var rest := live[..i] + live[i + 1..];
    forall x | 0 <= x < |rest|
      ensures rest[x].addr != live[i].addr && (rest[x].addr != nodes[k].addr || k == 0) && rest[x] in live
    {
      var l := if x < i then x else x + 1;
      assert rest[x] == live[l];
      assert if l < i then Apart(live[l], live[i]) else Apart(live[i], live[l]);
      if k >= 1 { assert Apart(live[l], nodes[k]); }
    }
  }

  lemma TakeHeaders(nodes: seq<Blk>, live: seq<Blk>, brk: nat, size: map<nat, nat>, k: nat, n: nat)
    requires Ordered(nodes) && Separate(nodes, live, brk) && HeadersKept(live, size) && 1 <= k < |nodes|
    requires 0 < n <= nodes[k].units
    requires nodes[k].addr in size && size[nodes[k].addr] == nodes[k].units
    ensures var p, left := nodes[k].addr, nodes[k].units - n;
            HeadersKept(live + [Taken(nodes, k, n)], if left == 0 then size else size[p := left][p + left := n])
  {
    forall x | 0 <= x < |live|
      ensures live[x].addr != nodes[k].addr && live[x].addr != nodes[k].addr + nodes[k].units - n
    {
      assert Apart(live[x], nodes[k]);
    }
  }

  // ---- Sizes ----

  /** nunits of malloc, in 32-bit arithmetic. */
  function Units(nbytes: nat): nat {
    ((nbytes + HEADER - 1) % UINT) / HEADER + 1
  }

  /** The block is large enough for the request exactly when the addition does not wrap. */
  lemma UnitsEnough(nbytes: nat)
    requires nbytes < UINT
    ensures (Units(nbytes) - 1) * HEADER >= nbytes <==> nbytes <= UINT - HEADER
    ensures 1 <= Units(nbytes) <= UINT / HEADER
  {
  }

  /** What sbrk receives as an int when morecore asks for u units. */
  function SbrkArg(u: nat): int {
    var bytes := (u * HEADER) % UINT;
    if bytes <= INTMAX then bytes else bytes - UINT
  }

  /** sbrk grows the memory by the block that morecore enters in the list exactly when the block's
      size fits in an int; else it grows it by nothing or shrinks it. */
  lemma SbrkArgExact(u: nat)
    requires u <= UINT / HEADER
    ensures u * HEADER <= INTMAX ==> SbrkArg(u) == u * HEADER
    ensures u * HEADER > INTMAX ==> SbrkArg(u) <= 0 < u * HEADER
  {
  }

  /** In terms of malloc's argument. */
  lemma SbrkFits(nbytes: nat)
    requires nbytes < UINT
    ensures Max(Units(nbytes), MINUNITS) * HEADER <= INTMAX <==> nbytes <= INTMAX - 15 || nbytes > UINT - HEADER
  {
  }

  /** Where each goes wrong: a request of UINT - 1 bytes gets a block with no room at all, and one of
      UINT - HEADER bytes makes morecore ask sbrk for 0 bytes. */
  lemma WrapCases()
    ensures Units(UINT - 1) == 1 && SbrkArg(Max(Units(UINT - HEADER), MINUNITS)) == 0
  {
  }

  function Max(a: nat, b: nat): nat {
    if a < b then b else a
  }

  /** Steps around a ring of n nodes from index a to index b. */
  function Dist(n: nat, a: nat, b: nat): nat
    requires a < n && b < n
  {
    if a <= b then b - a else n - a + b
  }

  function After(n: nat, a: nat): (r: nat)
    requires a < n
    ensures r < n
  {
    if a + 1 < n then a + 1 else 0
  }

  /** The two exit tests of free's loop together hold exactly at the right place. */
  lemma LocateStep(nodes: seq<Blk>, k: nat, place: nat, bp: nat)
    requires Ordered(nodes) && Place(nodes, place, bp) && k < |nodes|
    ensures var p, next := nodes[k].addr, NextAddr(nodes, k);
            (bp > p && bp < next) || (p >= next && (bp > p || bp < next)) <==> k == place
    ensures k != place ==> Dist(|nodes|, After(|nodes|, k), place) < Dist(|nodes|, k, place)
  {
  }

  /** Outside: no free block fits, and the block morecore enters in the list is not inside the memory
      that sbrk gave. */
  datatype Answer = Block(addr: nat) | NoMemory | Outside

  predicate NoneFits(nodes: seq<Blk>, n: nat) {
    forall i :: 0 <= i < |nodes| ==> nodes[i].units < n
  }

  class Allocator {
    const base: nat             // address of the static header
    var freep: nat              // 0 before the first call
    var ptr: map<nat, nat>      // s.ptr of the header at an address
    var size: map<nat, nat>     // s.size
    ghost var nodes: seq<Blk>
    ghost var live: seq<Blk>    // blocks handed out and not freed
    ghost var at: nat           // freep is nodes[at]
    ghost var brk: nat
    ghost var total: nat        // units obtained from sbrk

    ghost predicate Valid() reads this {
      && 0 < base < brk && Total(nodes) + Total(live) == total
      && Ordered(nodes) && nodes[0] == Blk(base, 0) && Separate(nodes, live, brk) && HeadersKept(live, size)
      && (if freep == 0 then nodes == [Blk(base, 0)] && live == []
          else at < |nodes| && freep == nodes[at].addr && Ring(nodes, ptr, size))
    }

    constructor (base: nat, brk: nat)
      requires 0 < base < brk
      ensures Valid() && freep == 0 && live == [] && total == 0 && this.brk == brk
    {
      this.base, this.brk := base, brk;
      freep, ptr, size := 0, map[], map[];
      nodes, live, at, total := [Blk(base, 0)], [], 0, 0;
    }

    /** The search loop of free: the place in address order, found from anywhere in the ring. */
    method Locate(bp: nat) returns (p: nat, ghost k: nat)
      requires Valid() && freep != 0 && base < bp && forall i :: 0 <= i < |nodes| ==> nodes[i].addr != bp
      ensures Place(nodes, k, bp) && p == nodes[k].addr
    {
      hide Ordered, Ring, Separate, HeadersKept, Total, Dist, After, NextAddr;
      ghost var place := FindPlace(nodes, bp, |nodes|);
      p, k := freep, at;
      AroundPlace(nodes, ptr, size, k);
      LocateStep(nodes, k, place, bp);
      while !(bp > p && bp < ptr[p])
        invariant k < |nodes| && p == nodes[k].addr && p in ptr && ptr[p] == NextAddr(nodes, k)
        decreases Dist(|nodes|, k, place)
      {
        LocateStep(nodes, k, place, bp);
        if p >= ptr[p] && (bp > p || bp < ptr[p]) {
          break;
        }
        AroundPlace(nodes, ptr, size, k);
        p := ptr[p];
        k := After(|nodes|, k);
        AroundPlace(nodes, ptr, size, k);
      }
      LocateStep(nodes, k, place, bp);
    }

    /** The header assignments of free, once p is known. */
    method WriteHeaders(p: nat, bp: nat, ghost nodes: seq<Blk>, ghost k: nat, ghost b: Blk)
      requires Ordered(nodes) && Fits(nodes, k, b) && p == nodes[k].addr && bp == b.addr
      requires p in ptr && p in size && ptr[p] == NextAddr(nodes, k) && size[p] == nodes[k].units
      requires ptr[p] in ptr && ptr[p] in size && bp in size && size[bp] == b.units
      modifies this`ptr, this`size
      ensures ptr == FreePtr(old(ptr), p, b, JoinsUpper(nodes, k, b), JoinsLower(nodes, k, b))
      ensures size == FreeSize(old(size), p, old(ptr)[p], b, JoinsUpper(nodes, k, b), JoinsLower(nodes, k, b))
    {
      JoinTests(nodes, k, b);
      hide Ordered;
      if bp + size[bp] == ptr[p] {
        size := size[bp := size[bp] + size[ptr[p]]];
        ptr := ptr[bp := ptr[ptr[p]]];
      } else {
        ptr := ptr[bp := ptr[p]];
      }
      if p + size[p] == bp {
        size := size[p := size[p] + size[bp]];
        ptr := ptr[p := ptr[bp]];
      } else {
        ptr := ptr[p := bp];
      }
      assert old(size)[bp := b.units] == old(size);
    }

    /** free of the block whose header is at bp. */
    method Free(bp: nat, ghost i: nat)
      requires Valid() && freep != 0 && i < |live| && live[i].addr == bp
      modifies this`freep, this`ptr, this`size, this`nodes, this`live, this`at
      ensures Valid() && freep != 0 && live == old(live[..i] + live[i + 1..])
      ensures exists k :: Fits(old(nodes), k, old(live)[i]) && nodes == Insert(old(nodes), k, old(live)[i])
      ensures nodes[at].units >= old(live)[i].units || nodes[After(|nodes|, at)].units >= old(live)[i].units
    {
      hide Insert, Separate, HeadersKept, Ring, Total, Ordered;
      ghost var b := live[i];
      LiveOutside(nodes, live, brk, i);
      ghost var k;
      var p;
      p, k := Locate(bp);
      LiveFits(nodes, live, brk, i, k);
      AroundPlace(nodes, ptr, size, k);
      HeaderOf(live, size, i);
      FreeRing(nodes, ptr, size, k, b);
      FreeHeaders(nodes, live, brk, ptr, size, i, k);
      InsertOrdered(nodes, k, b);
      InsertSeparate(nodes, live, brk, i, k);
      InsertTotal(nodes, k, b);
      TotalRemove(live, i);
      InsertIndex(nodes, k, b);
      JoinTests(nodes, k, b);
      WriteHeaders(p, bp, nodes, k, b);
      freep := p;
      at := k;
      nodes := Insert(nodes, k, b);
      live := live[..i] + live[i + 1..];
    }

    /** morecore: sbrk moved the break from hp by what it received.  False is where the model stops:
        the block that morecore is about to enter in the list is not inside the memory sbrk gave. */
    method MoreCore(nu: nat, hp: nat) returns (ok: bool)
      requires Valid() && freep != 0 && 0 < nu <= UINT / HEADER && brk <= hp
      modifies this`freep, this`ptr, this`size, this`nodes, this`live, this`at, this`brk, this`total
      ensures ok <==> Max(nu, MINUNITS) * HEADER <= INTMAX
      ensures Valid() && freep != 0 && live == old(live)
      ensures !ok ==> nodes == old(nodes) && total == old(total) && brk == old(brk)
      ensures ok ==> total == old(total) + Max(nu, MINUNITS) && brk * HEADER == hp * HEADER + SbrkArg(Max(nu, MINUNITS))
      ensures ok ==> nodes[at].units >= nu || nodes[After(|nodes|, at)].units >= nu
    {
      hide Insert, Ring, Total, Ordered;
      var u := nu;
      if u < MINUNITS {
        u := MINUNITS;
      }
      SbrkArgExact(u);
      if SbrkArg(u) < u * HEADER {
        return false;
      }
      NewBlock(nodes, live, brk, size, ptr, Blk(hp, u));
      TotalConcat(live, [Blk(hp, u)]);
      TotalOne(Blk(hp, u));
      size := size[hp := u];
      live := live + [Blk(hp, u)];
      brk := hp + u;
      total := total + u;
      Free(hp, |live| - 1);
      assert live == old(live);
      ok := true;
    }

    /** malloc.  sbrk is the address sbrk would give; the answer is the address of the block's header.
        At most one request goes to sbrk, and only if no free block is large enough. */
    method Malloc(nbytes: nat, sbrk: Option<nat>) returns (r: Answer)
      requires Valid() && nbytes < UINT
      requires sbrk.Some? ==> brk <= sbrk.value
      modifies this`freep, this`ptr, this`size, this`nodes, this`live, this`at, this`brk, this`total
      ensures Valid()
      ensures r == NoMemory <==> sbrk == None && NoneFits(old(nodes), Units(nbytes))
      ensures r == Outside <==>
                sbrk.Some? && NoneFits(old(nodes), Units(nbytes)) && INTMAX - 15 < nbytes <= UINT - HEADER
      ensures !r.Block? ==> live == old(live) && nodes == old(nodes) && total == old(total)
      ensures r.Block? ==> live == old(live) + [Blk(r.addr, Units(nbytes))]
      ensures r.Block? ==> ((Units(nbytes) - 1) * HEADER >= nbytes <==> nbytes <= UINT - HEADER)
      ensures r.Block? ==>
                total == old(total) + if NoneFits(old(nodes), Units(nbytes)) then Max(Units(nbytes), MINUNITS) else 0
    {
      hide Insert, Separate, HeadersKept, Ring, Total, Ordered, Scanned, Dist, After, NextAddr;
      UnitsEnough(nbytes);
      SbrkFits(nbytes);
      var nunits := Units(nbytes);
      Setup();
      var prevp := freep;
      AroundPlace(nodes, ptr, size, at);
      ScanStart(nodes, at, nunits);
      var p := ptr[prevp];
      ghost var j: nat, k: nat, big: nat, grown := at, After(|nodes|, at), 0, false;
      while true
        invariant Valid() && freep != 0 && live == old(live) && (!grown ==> brk == old(brk))
        invariant j < |nodes| && k == After(|nodes|, j) && prevp == nodes[j].addr && p == nodes[k].addr
        invariant !grown ==> nodes == old(nodes) && total == old(total) && Scanned(nodes, at, k, nunits)
        invariant grown ==> sbrk.Some? && total == old(total) + Max(nunits, MINUNITS)
        invariant grown ==> NoneFits(old(nodes), nunits) && Max(nunits, MINUNITS) * HEADER <= INTMAX
        invariant grown ==> big < |nodes| && nodes[big].units >= nunits && Dist(|nodes|, k, big) <= Dist(|nodes|, k, at)
        decreases !grown, Dist(|nodes|, k, at)
      {
        AroundPlace(nodes, ptr, size, k);
        NodesDistinct(nodes, k, at);
        if size[p] >= nunits {
          var taken := Carve(prevp, p, nunits, j, k);
          return Block(taken);
        }
        if grown { StillAhead(|nodes|, k, big, at); }
        if p == freep {
          ScanAll(nodes, at, nunits);
          if sbrk == None {
            return NoMemory;
          }
          var ok := MoreCore(nunits, sbrk.value);
          if !ok {
            return Outside;
          }
          p := freep;
          k := at;
          grown := true;
          big := if nodes[at].units >= nunits then at else After(|nodes|, at);
          AroundPlace(nodes, ptr, size, k);
          AheadAtStart(|nodes|, at, big);
        } else if !grown {
          ScanAdvance(nodes, at, k, nunits);
        }
        prevp, j := p, k;
        p, k := ptr[p], After(|nodes|, k);
      }
    }

    /** The first call makes base a ring of one. */
    method Setup()
      requires Valid()
      modifies this`freep, this`ptr, this`size, this`at
      ensures Valid() && freep != 0
    {
      if freep == 0 {
        FirstRing(base, ptr, size, live);
        ptr := ptr[base := base];
        freep := base;
        size := size[base := 0];
        at := 0;
      }
    }

    /** Take n units from the block at p, whose predecessor in the ring is prevp. */
    method Carve(prevp: nat, p: nat, n: nat, ghost j: nat, ghost k: nat) returns (r: nat)
      requires Valid() && freep != 0 && j < |nodes| && k == After(|nodes|, j) && prevp == nodes[j].addr
      requires p == nodes[k].addr
      requires 0 < n <= nodes[k].units
      modifies this`freep, this`ptr, this`size, this`nodes, this`live, this`at
      ensures Valid() && freep == prevp && live == old(live) + [Blk(r, n)] && Blk(r, n) == Taken(old(nodes), k, n)
      ensures nodes == Take(old(nodes), k, n)
    {
      hide Separate, HeadersKept, Ring, Total;
      AroundPlace(nodes, ptr, size, k);
      AroundPlace(nodes, ptr, size, j);
      TakeOrdered(nodes, k, n);
      TakeSeparate(nodes, live, brk, k, n);
      TakeHeaders(nodes, live, brk, size, k, n);
      TakeTotal(nodes, k, n);
      TotalConcat(live, [Taken(nodes, k, n)]);
      TotalOne(Taken(nodes, k, n));
      r := p;
      if size[p] == n {
        TakeAllRing(nodes, ptr, size, k);
        ptr := ptr[prevp := ptr[p]];
      } else {
        TakeTailRing(nodes, ptr, size, k, n);
        size := size[p := size[p] - n];
        r := r + size[p];
        size := size[r := n];
      }
      freep := prevp;
      at := j;
      live := live + [Taken(nodes, k, n)];
      nodes := Take(nodes, k, n);
    }
  }

  // ---- Going around the ring ----

  /** The nodes after at and before k, going around, are too small. */
  ghost predicate Scanned(nodes: seq<Blk>, at: nat, k: nat, n: nat)
    requires at < |nodes| && k < |nodes|
  {
    forall i :: 0 <= i < |nodes| ==> (Between(|nodes|, at, k, i) ==> nodes[i].units < n)
  }

  predicate Between(n: nat, at: nat, k: nat, i: nat)
    requires at < n && k < n && i < n
  {
    Dist(n, After(n, at), i) < Dist(n, After(n, at), k)
  }

  lemma ScanStart(nodes: seq<Blk>, at: nat, n: nat)
    requires at < |nodes|
    ensures Scanned(nodes, at, After(|nodes|, at), n)
  {
  }

  lemma ScanAdvance(nodes: seq<Blk>, at: nat, k: nat, n: nat)
    requires at < |nodes| && k < |nodes| && k != at && Scanned(nodes, at, k, n) && nodes[k].units < n
    ensures Scanned(nodes, at, After(|nodes|, k), n)
    ensures Dist(|nodes|, After(|nodes|, k), at) < Dist(|nodes|, k, at)
  {
    forall i | 0 <= i < |nodes| && Between(|nodes|, at, After(|nodes|, k), i) ensures nodes[i].units < n {
      assert Between(|nodes|, at, k, i) || i == k;
    }
  }

  lemma ScanAll(nodes: seq<Blk>, at: nat, n: nat)
    requires at < |nodes| && Scanned(nodes, at, at, n) && nodes[at].units < n
    ensures NoneFits(nodes, n)
  {
    forall i | 0 <= i < |nodes| ensures nodes[i].units < n {
      assert i == at || Between(|nodes|, at, at, i);
    }
  }

  /** A block that is reached no later than at is still ahead after a step past another block. */
  lemma StillAhead(n: nat, k: nat, big: nat, at: nat)
    requires k < n && big < n && at < n && Dist(n, k, big) <= Dist(n, k, at) && k != big
    ensures k != at && Dist(n, After(n, k), big) <= Dist(n, After(n, k), at) < Dist(n, k, at)
  {
  }

  lemma AheadAtStart(n: nat, at: nat, big: nat)
    requires at < n && (big == at || big == After(n, at))
    ensures Dist(n, After(n, at), big) <= Dist(n, After(n, at), at)
  {
  }

  lemma NodesDistinct(nodes: seq<Blk>, k: nat, at: nat)
    requires Ordered(nodes) && k < |nodes| && at < |nodes|
    ensures nodes[k].addr == nodes[at].addr <==> k == at
    ensures 0 < nodes[k].addr
  {
  }

  lemma FirstRing(base: nat, ptr: map<nat, nat>, size: map<nat, nat>, live: seq<Blk>)
    requires live == []
    ensures Ring([Blk(base, 0)], ptr[base := base], size[base := 0]) && HeadersKept(live, size[base := 0])
  {
  }

  /** Memory above the old break is apart from everything. */
  lemma NewBlock(nodes: seq<Blk>, live: seq<Blk>, brk: nat, size: map<nat, nat>, ptr: map<nat, nat>, b: Blk)
    requires Ordered(nodes) && Ring(nodes, ptr, size) && Separate(nodes, live, brk) && HeadersKept(live, size)
    requires brk <= b.addr && 0 < b.units && nodes[0].addr < b.addr
    ensures Separate(nodes, live + [b], b.addr + b.units) && HeadersKept(live + [b], size[b.addr := b.units])
    ensures Ring(nodes, ptr, size[b.addr := b.units])
  {
    var size' := size[b.addr := b.units];
    forall i | 0 <= i < |nodes| ensures NodeOk(nodes, ptr, size', i) {
      assert NodeOk(nodes, ptr, size, i);
    }
  }

  lemma LiveOutside(nodes: seq<Blk>, live: seq<Blk>, brk: nat, i: nat)
    requires Ordered(nodes) && Separate(nodes, live, brk) && i < |live|
    ensures nodes[0].addr < live[i].addr
    ensures forall j :: 0 <= j < |nodes| ==> nodes[j].addr != live[i].addr
  {
    forall j | 0 <= j < |nodes| ensures nodes[j].addr != live[i].addr {
      if j >= 1 { assert Apart(live[i], nodes[j]); }
    }
  }

  lemma HeaderOf(live: seq<Blk>, size: map<nat, nat>, i: nat)
    requires HeadersKept(live, size) && i < |live|
    ensures live[i].addr in size && size[live[i].addr] == live[i].units
  {
  }

  /** The address comparisons of free decide exactly whether the block touches its neighbours. */
  lemma JoinTests(nodes: seq<Blk>, k: nat, b: Blk)
    requires Ordered(nodes) && Fits(nodes, k, b)
    ensures b.addr + b.units == NextAddr(nodes, k) <==> JoinsUpper(nodes, k, b)
    ensures 0 < nodes[k].addr != b.addr
  {
  }

  lemma TotalRemove(live: seq<Blk>, i: nat)
    requires i < |live|
    ensures Total(live[..i] + live[i + 1..]) == Total(live) - live[i].units
  {
    TotalSplit(live, i);
    TotalConcat(live[..i], live[i + 1..]);
  }
}
