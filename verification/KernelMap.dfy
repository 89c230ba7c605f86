/** The kernel's half of a page directory (kmap of vm.c) as a value. */
module KernelMap {
  import opened PageTables

  const USERPAGES: nat := USERDIRS * NENTRIES  // KERNBASE as a page number
  const ALLPAGES: nat := NENTRIES * NENTRIES

  /** One entry of kmap, in pages: n pages from page first on, mapped to the frames from frame on. */
  datatype Kmap = Kmap(first: nat, n: nat, frame: nat, perm: nat)

  predicate Covers(k: Kmap, v: nat) {
    k.first <= v < k.first + k.n
  }

  predicate InKernel(k: Kmap) {
    USERPAGES <= k.first && 0 < k.n && k.first + k.n <= ALLPAGES
  }

  predicate KernelHalf(kmap: seq<Kmap>) {
    forall k :: 0 <= k < |kmap| ==> InKernel(kmap[k])
  }

  ghost predicate Disjoint(kmap: seq<Kmap>) {
    forall j, k, v: nat :: 0 <= j < k < |kmap| ==> !(Covers(kmap[j], v) && Covers(kmap[k], v))
  }

  /** What the entries of kmap say about page v. */
  function KernelPte(kmap: seq<Kmap>, v: nat): Pte {
    if kmap == [] then Absent
    else
      var k := kmap[|kmap| - 1];
      if Covers(k, v) then Present(k.frame + v - k.first, k.perm) else KernelPte(kmap[..|kmap| - 1], v)
  }

  ghost predicate TableUsed(kmap: seq<Kmap>, i: nat) {
    exists v: nat :: v / NENTRIES == i && KernelPte(kmap, v).Present?
  }

  /** The directory entries that the kernel's mappings go through. */
  ghost function KernelTables(kmap: seq<Kmap>): set<nat> {
    set i: nat | i < NENTRIES && TableUsed(kmap, i)
  }

  lemma {:induction false} CoveredIffPresent(kmap: seq<Kmap>, v: nat)
    ensures KernelPte(kmap, v).Present? <==> exists k :: 0 <= k < |kmap| && Covers(kmap[k], v)
  {
    if kmap != [] {
      var front := kmap[..|kmap| - 1];
      CoveredIffPresent(front, v);
      if k :| 0 <= k < |front| && Covers(front[k], v) { assert Covers(kmap[k], v); }
      if k :| 0 <= k < |kmap| && Covers(kmap[k], v) && k < |front| { assert Covers(front[k], v); }
    }
  }

  /** Each page of each entry is mapped to its own frame, in order, with the entry's permissions. */
  lemma {:induction false} EntryMapped(kmap: seq<Kmap>, k: nat, v: nat)
    requires Disjoint(kmap) && k < |kmap| && Covers(kmap[k], v)
    ensures KernelPte(kmap, v) == Present(kmap[k].frame + (v - kmap[k].first), kmap[k].perm)
  {
    var front := kmap[..|kmap| - 1];
    if k < |front| {
      assert forall i, j, w: nat :: 0 <= i < j < |front| ==> !(Covers(front[i], w) && Covers(front[j], w)) by {
        forall i, j, w: nat | 0 <= i < j < |front| ensures !(Covers(front[i], w) && Covers(front[j], w)) {
          assert !(Covers(kmap[i], w) && Covers(kmap[j], w));
        }
      }
      EntryMapped(front, k, v);
      assert !(Covers(kmap[k], v) && Covers(kmap[|front|], v));
    }
  }

  /** No page below KERNBASE is mapped. */
  lemma UserHalfAbsent(kmap: seq<Kmap>, v: nat)
    requires KernelHalf(kmap) && v < USERPAGES
    ensures KernelPte(kmap, v) == Absent
  {
    CoveredIffPresent(kmap, v);
  }

  lemma NoUserTable(kmap: seq<Kmap>, i: nat)
    requires KernelHalf(kmap) && i < USERDIRS
    ensures i !in KernelTables(kmap)
  {
    forall v: nat | v / NENTRIES == i ensures KernelPte(kmap, v) == Absent { UserHalfAbsent(kmap, v); }
  }

  // ---- The first entries of kmap, and j pages of the next ----

  function Partly(kmap: seq<Kmap>, i: nat, j: nat): seq<Kmap>
    requires i < |kmap|
  {
    kmap[..i] + [kmap[i].(n := j)]
  }

  lemma PartlyNone(kmap: seq<Kmap>, i: nat, v: nat)
    requires i < |kmap|
    ensures KernelPte(Partly(kmap, i, 0), v) == KernelPte(kmap[..i], v)
  {
    assert Partly(kmap, i, 0)[..i] == kmap[..i];
  }

  lemma PartlyAll(kmap: seq<Kmap>, i: nat)
    requires i < |kmap|
    ensures Partly(kmap, i, kmap[i].n) == kmap[..i + 1]
  {
  }

  /** One more page: its translation, and no other. */
  lemma PartlyNext(kmap: seq<Kmap>, i: nat, j: nat, v: nat)
    requires i < |kmap| && j < kmap[i].n
    ensures KernelPte(Partly(kmap, i, j + 1), v)
            == if v == kmap[i].first + j then Present(kmap[i].frame + j, kmap[i].perm)
               else KernelPte(Partly(kmap, i, j), v)
  {
    assert Partly(kmap, i, j)[..i] == kmap[..i] == Partly(kmap, i, j + 1)[..i];
  }

  /** A page that is mapped before its turn is in two entries. */
  lemma MappedTwice(kmap: seq<Kmap>, i: nat, j: nat)
    requires i < |kmap| && j < kmap[i].n && KernelPte(Partly(kmap, i, j), kmap[i].first + j) != Absent
    ensures !Disjoint(kmap)
  {
    var v, done := kmap[i].first + j, Partly(kmap, i, j);
    CoveredIffPresent(done, v);
    var k :| 0 <= k < |done| && Covers(done[k], v);
    assert k < i && Covers(kmap[k], v) && Covers(kmap[i], v);
  }

  /** The first i entries are disjoint, and the first j pages of the next are in none of them. */
  ghost predicate DisjointUpTo(kmap: seq<Kmap>, i: nat, j: nat)
    requires i < |kmap|
  {
    && Disjoint(kmap[..i])
    && forall v: nat :: kmap[i].first <= v < kmap[i].first + j ==> KernelPte(kmap[..i], v) == Absent
  }

  lemma DisjointPage(kmap: seq<Kmap>, i: nat, j: nat)
    requires i < |kmap| && j < kmap[i].n && DisjointUpTo(kmap, i, j)
    requires KernelPte(Partly(kmap, i, j), kmap[i].first + j) == Absent
    ensures DisjointUpTo(kmap, i, j + 1)
  {
    assert Partly(kmap, i, j)[..i] == kmap[..i];
  }

  lemma DisjointEntry(kmap: seq<Kmap>, i: nat)
    requires i < |kmap| && DisjointUpTo(kmap, i, kmap[i].n)
    ensures Disjoint(kmap[..i + 1])
  {
    hide KernelPte;
    var front, more := kmap[..i], kmap[..i + 1];
    forall j, k, v: nat | 0 <= j < k < |more| ensures !(Covers(more[j], v) && Covers(more[k], v)) {
      if k < i {
        assert !(Covers(front[j], v) && Covers(front[k], v));
      } else if Covers(kmap[i], v) {
        CoveredIffPresent(front, v);
        assert !Covers(front[j], v);
      }
    }
  }

  /** What the first pages use, all of kmap uses. */
  lemma PartOfAll(kmap: seq<Kmap>, i: nat, j: nat, v: nat)
    requires i < |kmap| && j <= kmap[i].n && KernelPte(Partly(kmap, i, j), v).Present?
    ensures KernelPte(kmap, v).Present?
  {
    var done := Partly(kmap, i, j);
    CoveredIffPresent(done, v);
    CoveredIffPresent(kmap, v);
    var k :| 0 <= k < |done| && Covers(done[k], v);
    assert Covers(kmap[k], v);
  }

  lemma TablesWithin(kmap: seq<Kmap>, i: nat, j: nat)
    requires i < |kmap| && j < kmap[i].n && InKernel(kmap[i])
    ensures var t := (kmap[i].first + j) / NENTRIES;
            KernelTables(Partly(kmap, i, j)) + {t} <= KernelTables(kmap)
  {
    hide KernelPte, Partly;
    var p := kmap[i].first + j;
    forall t: nat | t in KernelTables(Partly(kmap, i, j)) ensures t in KernelTables(kmap) {
      var v: nat :| v / NENTRIES == t && KernelPte(Partly(kmap, i, j), v).Present?;
      PartOfAll(kmap, i, j, v);
    }
    PartlyNext(kmap, i, j, p);
    PartOfAll(kmap, i, j + 1, p);
    assert p / NENTRIES < NENTRIES;
  }

  lemma TablesNext(kmap: seq<Kmap>, i: nat, j: nat)
    requires i < |kmap| && j < kmap[i].n && InKernel(kmap[i])
    ensures KernelTables(Partly(kmap, i, j + 1)) == KernelTables(Partly(kmap, i, j)) + {(kmap[i].first + j) / NENTRIES}
  {
    hide KernelPte, Partly;
    var p, a, b := kmap[i].first + j, Partly(kmap, i, j), Partly(kmap, i, j + 1);
    PartlyNext(kmap, i, j, p);
    assert p / NENTRIES < NENTRIES;
    forall t: nat | t < NENTRIES ensures TableUsed(b, t) <==> TableUsed(a, t) || t == p / NENTRIES {
      if v: nat :| v / NENTRIES == t && KernelPte(b, v).Present? { PartlyNext(kmap, i, j, v); }
      if v: nat :| v / NENTRIES == t && KernelPte(a, v).Present? {
        PartlyNext(kmap, i, j, v);
        assert KernelPte(b, v).Present?;
      }
    }
  }

  lemma TablesNone(kmap: seq<Kmap>, i: nat)
    requires i < |kmap|
    ensures KernelTables(Partly(kmap, i, 0)) == KernelTables(kmap[..i])
  {
    forall v: nat ensures KernelPte(Partly(kmap, i, 0), v) == KernelPte(kmap[..i], v) { PartlyNone(kmap, i, v); }
  }

  lemma NoTables()
    ensures KernelTables([]) == {}
  {
  }

  lemma {:induction false} FewBelow(s: set<nat>, n: nat)
    requires forall x :: x in s ==> x < n
    ensures |s| <= n
  {
    if n == 0 {
      assert s == {};
    } else {
      FewBelow(s - {n - 1}, n - 1);
    }
  }

  lemma Fewer(a: set<nat>, t: nat, b: set<nat>)
    requires a + {t} <= b && t !in a
    ensures |a| < |b|
  {
    assert b == (b - (a + {t})) + (a + {t});
    assert |a + {t}| == |a| + 1;
  }
}
