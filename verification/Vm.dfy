/** kalloc.c and the user half of vm.c in place: pages move between the free list and the page
    directories of any number of processes. */
module Vm {
  import opened Common
  import opened PageTables
  import opened KernelMap

  const PGSIZE: nat := 4096
  const DIRSPAN: nat := 0x40_0000         // bytes mapped by one page table
  const KERNBASE: nat := 0x8000_0000
  const PHYSTOP: nat := 0x2000_0000 / PGSIZE  // as a page number
  const USERPERM: nat := 6                // PTE_W | PTE_U
  const TABLEPERM: nat := 6

  function Pdx(va: nat): nat { va / DIRSPAN }

  function Ptx(va: nat): nat { va / PGSIZE % NENTRIES }

  function RoundUp(sz: nat): nat { (sz + PGSIZE - 1) % UINT / PGSIZE * PGSIZE }

  /** The translation of virtual page v. */
  ghost function Trans(s: Mem, d: nat, v: nat): Pte {
    Entry(s, d, v / NENTRIES, v % NENTRIES)
  }

  lemma Split(va: nat)
    requires va < UINT
    ensures va / PGSIZE / NENTRIES == Pdx(va) < NENTRIES && va / PGSIZE % NENTRIES == Ptx(va) < NENTRIES
    ensures va < KERNBASE ==> Pdx(va) < USERDIRS
  {
  }

  /** NoTable: no page was left for a table.  Remap: the panic of mappages. */
  datatype MapResult = Mapped | NoTable | Remap

  /** A translation is the entry in the table, if there is a table. */
  lemma TransEntry(s: Mem, d: nat, va: nat)
    requires va < UINT
    ensures !HasTable(s, d, Pdx(va)) ==> Trans(s, d, va / PGSIZE) == Absent
    ensures HasTable(s, d, Pdx(va)) && IsPage(s, TableOf(s, d, Pdx(va))) ==>
              Trans(s, d, va / PGSIZE) == s.pages[TableOf(s, d, Pdx(va))][Ptx(va)]
  {
    Split(va);
  }

  /** Short: out of memory.  Overlap: the "remap" panic of mappages. */
  datatype KvmResult = Ready(d: nat) | Short | Overlap

  /** Panicked: a page of the parent is missing.  Failed: out of memory. */
  datatype CopyResult = Copied(d: nat) | Failed | Panicked

  /** Leaked: there was a page, but none for the table it goes in. */
  datatype PageCopy = Entered(f: nat) | NoPage | Leaked(f: nat)

  class Memory {
    var free: seq<nat>                 // kmem.freelist
    var pages: map<nat, seq<Pte>>      // contents of the pages used as directories and tables
    const endpg: nat                   // the first page after the kernel
    ghost var owner: map<nat, Use>
    ghost var loose: set<nat>
    ghost var dirs: set<nat>
    ghost var all: set<nat>            // every page kinit handed to the allocator

    ghost function Abs(): Mem reads this { Mem(free, pages) }

    ghost predicate Valid() reads this {
      && Good(Abs(), owner, loose, dirs, all)
      && 0 < endpg && forall f :: f in all ==> endpg <= f < PHYSTOP
    }

    /** freerange: every whole page of the range goes on the free list. */
    constructor (endpg: nat, first: nat, last: nat)
      requires 0 < endpg <= first <= last <= PHYSTOP
      ensures Valid() && loose == {} && dirs == {} && this.endpg == endpg
      ensures forall f :: f in all <==> first <= f < last
      ensures |free| == last - first && forall f :: f in free <==> f in all
    {
      var fl: seq<nat> := [];
      ghost var seen: set<nat> := {};
      var p := first;
      while p < last
        invariant first <= p <= last && |fl| == p - first
        invariant forall f :: f in fl <==> first <= f < p
        invariant forall f :: f in seen <==> first <= f < p
        invariant forall i, j :: 0 <= i < j < |fl| ==> fl[i] != fl[j]
      {
        assert p !in fl;
        fl := [p] + fl;
        seen := seen + {p};
        p := p + 1;
      }
      this.endpg := endpg;
      free, pages := fl, map[];
      owner, loose, dirs, all := map[], {}, {}, seen;
    }

    method Kalloc() returns (r: Option<nat>)
      requires Valid()
      modifies this`free, this`loose
      ensures Valid()
      ensures r == None <==> old(free) == []
      ensures r == None ==> free == old(free) && loose == old(loose)
      ensures r.Some? ==> old(free) == [r.value] + free && loose == old(loose) + {r.value}
      ensures r.Some? ==> r.value !in owner && r.value !in old(loose) && r.value in all
    {
      if free == [] {
        return None;
      }
      KallocGood(Abs(), owner, loose, dirs, all);
      r := Some(free[0]);
      loose := loose + {free[0]};
      free := free[1..];
    }

    /** kfree; ok is false for its panic, which a page from kalloc never causes. */
    method Kfree(f: nat) returns (ok: bool)
      requires Valid() && f in loose
      modifies this`free, this`loose
      ensures Valid() && ok && free == [f] + old(free) && loose == old(loose) - {f}
    {
      assert f in all;
      if f < endpg || f >= PHYSTOP {
        return false;
      }
      KfreeGood(Abs(), owner, loose, dirs, all, f);
      free := [f] + free;
      loose := loose - {f};
      return true;
    }

    /** The start of setupkvm: a zeroed page as a new directory, which maps nothing. */
    method NewDirectory() returns (d: Option<nat>)
      requires Valid()
      modifies this`free, this`pages, this`owner, this`loose, this`dirs
      ensures Valid() && loose == old(loose)
      ensures d == None ==> unchanged(this) && free == []
      ensures d.Some? ==> d.value !in old(dirs) && dirs == old(dirs) + {d.value} && old(free) == [d.value] + free
      ensures d.Some? ==>
                (forall v: nat :: Trans(Abs(), d.value, v) == Absent) && forall i: nat :: !HasTable(Abs(), d.value, i)
      ensures forall e, v: nat :: e in old(dirs) ==> Trans(Abs(), e, v) == Trans(old(Abs()), e, v)
    {
      hide Owned, Counted, Entry;
      var page := Kalloc();
      if page == None {
        return None;
      }
      ghost var s := Abs();
      NewDirEntries(s, owner, loose, dirs, page.value);
      NewDirGood(s, owner, loose, dirs, all, page.value);
      SamePages(old(Abs()), s, owner, old(loose), dirs);
      pages := pages[page.value := ZeroPage()];
      assert Abs() == WithDir(s, page.value);
      owner := owner[page.value := Dir];
      loose := loose - {page.value};
      dirs := dirs + {page.value};
      assert loose == old(loose);
      return page;
    }

    /** walkpgdir: the table for va, added if alloc asks for it and a page is free.  No translation
        of any process changes. */
    method WalkPgdir(d: nat, va: nat, alloc: bool) returns (t: Option<nat>)
      requires Valid() && d in dirs && va < UINT
      modifies this`free, this`pages, this`owner, this`loose
      ensures Valid() && loose == old(loose)
      ensures t.Some? ==> HasTable(Abs(), d, Pdx(va)) && TableOf(Abs(), d, Pdx(va)) == t.value && IsPage(Abs(), t.value)
      ensures t == None ==> unchanged(this) && !HasTable(Abs(), d, Pdx(va)) && (alloc ==> free == [])
      ensures !alloc || old(HasTable(Abs(), d, Pdx(va))) ==> unchanged(this)
      ensures alloc && t.Some? && !old(HasTable(Abs(), d, Pdx(va))) ==> |free| == |old(free)| - 1
      ensures t.Some? ==> forall i: nat :: HasTable(Abs(), d, i) <==> old(HasTable(Abs(), d, i)) || i == Pdx(va)
      ensures forall e, v: nat :: e in dirs ==> Trans(Abs(), e, v) == Trans(old(Abs()), e, v)
      ensures forall f :: f in free ==> f in old(free)
    {
      hide Owned, Counted, Entry;
      Split(va);
      DirIsPage(Abs(), owner, loose, dirs, d);
      var pde := pages[d][Pdx(va)];
      if pde.Present? {
        TableIsApart(Abs(), owner, loose, dirs, d, Pdx(va));
        return Some(pde.frame);
      }
      if !alloc {
        return None;
      }
      var page := Kalloc();
      if page == None {
        return None;
      }
      ghost var s := Abs();
      AddTableEntries(s, owner, loose, dirs, d, Pdx(va), page.value, TABLEPERM);
      AddTableGood(s, owner, loose, dirs, all, d, Pdx(va), page.value, TABLEPERM);
      SamePages(old(Abs()), s, owner, old(loose), dirs);
      pages := pages[page.value := ZeroPage()];
      pages := pages[d := pages[d][Pdx(va) := Present(page.value, TABLEPERM)]];
      assert Abs() == WithTable(s, d, Pdx(va), page.value, TABLEPERM);
      owner := owner[page.value := Table(d, Pdx(va))];
      loose := loose - {page.value};
      assert loose == old(loose);
      return page;
    }

    /** mappages for page v of the kernel half. */
    method MapKernelPage(d: nat, v: nat, frame: nat, perm: nat) returns (r: MapResult)
      requires Valid() && d in dirs && USERPAGES <= v < ALLPAGES
      modifies this`free, this`pages, this`owner, this`loose
      ensures Valid() && loose == old(loose)
      ensures r == Remap <==> Trans(old(Abs()), d, v) != Absent
      ensures r == NoTable ==> free == [] && !old(HasTable(Abs(), d, v / NENTRIES))
      ensures r != Mapped ==> unchanged(this)
      ensures r == Mapped ==> |old(free)| == |free| + if old(HasTable(Abs(), d, v / NENTRIES)) then 0 else 1
      ensures r == Mapped ==>
                forall i: nat :: HasTable(Abs(), d, i) <==> old(HasTable(Abs(), d, i)) || i == v / NENTRIES
      ensures r == Mapped ==> Trans(Abs(), d, v) == Present(frame, perm)
      ensures r == Mapped ==>
                forall e, w: nat :: e in dirs && (e, w) != (d, v) ==> Trans(Abs(), e, w) == Trans(old(Abs()), e, w)
      ensures forall g :: g in free ==> g in old(free)
    {
      hide Owned, Counted, Entry;
      var va := v * PGSIZE;
      Split(va);
      var t := WalkPgdir(d, va, true);
      TransEntry(old(Abs()), d, va);
      if t == None {
        return NoTable;
      }
      TransEntry(Abs(), d, va);
      if pages[t.value][Ptx(va)].Present? {
        return Remap;
      }
      ghost var s := Abs();
      PutEntries(s, owner, loose, dirs, d, Pdx(va), Ptx(va), Present(frame, perm));
      KernelMapGood(s, owner, loose, dirs, all, d, Pdx(va), Ptx(va), Present(frame, perm));
      pages := pages[t.value := pages[t.value][Ptx(va) := Present(frame, perm)]];
      assert Abs() == SetEntry(s, t.value, Ptx(va), Present(frame, perm));
      forall e, w: nat | e in dirs && (e, w) != (d, v) ensures Trans(Abs(), e, w) == Trans(old(Abs()), e, w) {
        SamePage(v, w);
      }
      return Mapped;
    }

    /** mappages for one entry of kmap. */
    method MapKernel(d: nat, kmap: seq<Kmap>, i: nat) returns (r: MapResult)
      requires Valid() && d in dirs && i < |kmap| && KernelHalf(kmap) && MapsTo(Abs(), d, kmap[..i])
      requires Disjoint(kmap[..i])
      modifies this`free, this`pages, this`owner, this`loose
      ensures Valid() && loose == old(loose) && forall g :: g in free ==> g in old(free)
      ensures r == Remap ==> !Disjoint(kmap)
      ensures r == NoTable ==> |old(free)| + |KernelTables(kmap[..i])| < |KernelTables(kmap)|
      ensures r == Mapped ==> && MapsTo(Abs(), d, kmap[..i + 1]) && Disjoint(kmap[..i + 1])
                              && |old(free)| + |KernelTables(kmap[..i])| == |free| + |KernelTables(kmap[..i + 1])|
      ensures r != Remap ==> forall e, v: nat :: e in dirs && e != d ==> Trans(Abs(), e, v) == Trans(old(Abs()), e, v)
    {
      hide Good, Trans, HasTable, KernelTables, KernelPte, Partly, MapsTo, Disjoint;
      var k := kmap[i];
      var j := 0;
      TablesNone(kmap, i);
      MapsNone(Abs(), d, kmap, i);
      while j < k.n
        invariant j <= k.n && Valid() && loose == old(loose) && forall g :: g in free ==> g in old(free)
        invariant MapsTo(Abs(), d, Partly(kmap, i, j)) && DisjointUpTo(kmap, i, j)
        invariant |old(free)| + |KernelTables(kmap[..i])| == |free| + |KernelTables(Partly(kmap, i, j))|
        invariant forall e, v: nat :: e in dirs && e != d ==> Trans(Abs(), e, v) == Trans(old(Abs()), e, v)
      {
        ghost var s1 := Abs();
        MapsGive(s1, d, Partly(kmap, i, j), k.first + j);
        r := MapKernelPage(d, k.first + j, k.frame + j, k.perm);
        TablesWithin(kmap, i, j);
        if r == Remap {
          MappedTwice(kmap, i, j);
          return;
        }
        if r == NoTable {
          Fewer(KernelTables(Partly(kmap, i, j)), (k.first + j) / NENTRIES, KernelTables(kmap));
          return;
        }
        MapsNext(s1, Abs(), d, kmap, i, j);
        DisjointPage(kmap, i, j);
        j := j + 1;
      }
      PartlyAll(kmap, i);
      DisjointEntry(kmap, i);
      r := Mapped;
    }

    /** setupkvm.  It runs out of memory exactly when the free list is no longer than the list of the
        kernel's page tables, and then all is given back. */
    method SetupKvm(kmap: seq<Kmap>) returns (r: KvmResult)
      requires Valid() && KernelHalf(kmap)
      modifies this`free, this`pages, this`owner, this`loose, this`dirs
      ensures Valid()
      ensures r == Overlap ==> !Disjoint(kmap)
      ensures r.Ready? ==> Disjoint(kmap)
      ensures r == Short ==> dirs == old(dirs) && |old(free)| <= |KernelTables(kmap)|
      ensures r.Ready? ==> && r.d !in old(dirs) && dirs == old(dirs) + {r.d} && MapsTo(Abs(), r.d, kmap)
                           && |old(free)| == |free| + 1 + |KernelTables(kmap)|
                           && forall g :: g in free ==> g in old(free)
      ensures r != Overlap ==> loose == old(loose)
      ensures r != Overlap ==> forall e, v: nat :: e in old(dirs) ==> Trans(Abs(), e, v) == Trans(old(Abs()), e, v)
    {
      hide Good, Trans, HasTable, KernelTables, KernelPte, MapsTo;
      var dir := NewDirectory();
      if dir == None {
        return Short;
      }
      var d := dir.value;
      MapsNothing(Abs(), d);
      NoTables();
      assert kmap[..0] == [];
      var i := 0;
      while i < |kmap|
        invariant i <= |kmap| && Valid() && loose == old(loose) && d !in old(dirs) && dirs == old(dirs) + {d}
        invariant MapsTo(Abs(), d, kmap[..i]) && |old(free)| == |free| + 1 + |KernelTables(kmap[..i])|
        invariant Disjoint(kmap[..i])
        invariant forall g :: g in free ==> g in old(free)
        invariant forall e, v: nat :: e in old(dirs) ==> Trans(Abs(), e, v) == Trans(old(Abs()), e, v)
      {
        var m := MapKernel(d, kmap, i);
        if m == Remap {
          return Overlap;
        }
        if m == NoTable {
          var fine := FreeVm(d);
          assert dirs == old(dirs);
          return Short;
        }
        i := i + 1;
      }
      assert kmap[..i] == kmap;
      return Ready(d);
    }

    /** mappages for one user page. */
    method MapPage(d: nat, va: nat, f: nat, perm: nat) returns (r: MapResult)
      requires Valid() && d in dirs && va < KERNBASE && va % PGSIZE == 0 && f in loose
      modifies this`free, this`pages, this`owner, this`loose
      ensures Valid()
      ensures r == Remap <==> Trans(old(Abs()), d, va / PGSIZE) != Absent
      ensures r == NoTable ==> free == [] && !old(HasTable(Abs(), d, Pdx(va)))
      ensures r == Mapped ==> |free| == |old(free)| - (if old(HasTable(Abs(), d, Pdx(va))) then 0 else 1)
      ensures r == Mapped ==> forall i: nat :: HasTable(Abs(), d, i) <==> old(HasTable(Abs(), d, i)) || i == Pdx(va)
      ensures r != Mapped ==> unchanged(this)
      ensures r == Mapped ==> loose == old(loose) - {f} && Trans(Abs(), d, va / PGSIZE) == Present(f, perm)
      ensures r == Mapped ==>
                forall e, v: nat :: e in dirs && (e, v) != (d, va / PGSIZE) ==>
                  Trans(Abs(), e, v) == Trans(old(Abs()), e, v)
      ensures forall g :: g in free ==> g in old(free)
    {
      hide Owned, Counted, Entry;
      Split(va);
      var t := WalkPgdir(d, va, true);
      TransEntry(old(Abs()), d, va);
      if t == None {
        return NoTable;
      }
      TransEntry(Abs(), d, va);
      if pages[t.value][Ptx(va)].Present? {
        return Remap;
      }
      ghost var s := Abs();
      PutEntries(s, owner, loose, dirs, d, Pdx(va), Ptx(va), Present(f, perm));
      MapGood(s, owner, loose, dirs, all, d, Pdx(va), Ptx(va), f, perm);
      pages := pages[t.value := pages[t.value][Ptx(va) := Present(f, perm)]];
      assert Abs() == SetEntry(s, t.value, Ptx(va), Present(f, perm));
      owner := owner[f := User(d, Pdx(va), Ptx(va))];
      loose := loose - {f};
      forall e, v: nat | e in dirs && (e, v) != (d, va / PGSIZE) ensures Trans(Abs(), e, v) == Trans(old(Abs()), e, v) {
        SamePage(va / PGSIZE, v);
      }
      return Mapped;
    }

    /** One page of deallocuvm: free the page at va if there is one. */
    method UnmapPage(d: nat, va: nat, t: nat) returns (ok: bool)
      requires Valid() && d in dirs && va < KERNBASE && va % PGSIZE == 0
      requires HasTable(Abs(), d, Pdx(va)) && TableOf(Abs(), d, Pdx(va)) == t && IsPage(Abs(), t)
      modifies this`free, this`pages, this`owner, this`loose
      ensures Valid() && ok && loose == old(loose) && Trans(Abs(), d, va / PGSIZE) == Absent
      ensures SubMap(owner, old(owner))
      ensures forall e, v: nat :: e in dirs && (e, v) != (d, va / PGSIZE) ==>
                Trans(Abs(), e, v) == Trans(old(Abs()), e, v)
    {
      Split(va);
      ghost var s := Abs();
      var pte := pages[t][Ptx(va)];
      assert pte == Trans(s, d, va / PGSIZE);
      hide Owned, Counted, Entry;
      if pte == Absent {
        return true;
      }
      PutEntries(s, owner, loose, dirs, d, Pdx(va), Ptx(va), Absent);
      UnmapGood(s, owner, loose, dirs, all, d, Pdx(va), Ptx(va));
      OwnedNotLoose(s, owner, loose, dirs, pte.frame);
      ghost var was := loose;
      pages := pages[t := pages[t][Ptx(va) := Absent]];
      owner := owner - {pte.frame};
      loose := loose + {pte.frame};
      assert Abs() == SetEntry(s, t, Ptx(va), Absent);
      ghost var s1 := Abs();
      ok := Kfree(pte.frame);
      SamePages(s1, Abs(), owner, was + {pte.frame}, dirs);
      assert loose == old(loose);
      forall e, v: nat | e in dirs && (e, v) != (d, va / PGSIZE) ensures Trans(Abs(), e, v) == Trans(old(Abs()), e, v) {
        SamePage(va / PGSIZE, v);
      }
    }

    /** deallocuvm.  The step over an absent table never skips a mapped page and never wraps. */
    method DeallocUvm(d: nat, oldsz: nat, newsz: nat) returns (r: nat, ok: bool)
      requires Valid() && d in dirs && oldsz <= KERNBASE && newsz < UINT
      modifies this`free, this`pages, this`owner, this`loose
      ensures Valid() && ok && loose == old(loose) && SubMap(owner, old(owner))
      ensures r == if newsz >= oldsz then oldsz else newsz
      ensures newsz >= oldsz ==> unchanged(this)
      ensures forall e, v: nat :: e in dirs ==>
                Trans(Abs(), e, v) == if e == d && InRange(v, newsz, oldsz) then Absent else Trans(old(Abs()), e, v)
    {
      hide Good, Unmapped, Trans;
      ok := true;
      if newsz >= oldsz {
        return oldsz, true;
      }
      var a := RoundUp(newsz);
      ghost var s, lo := Abs(), RoundUp(newsz) / PGSIZE;
      UnmappedStart(s, dirs, d, lo);
      while a < oldsz
        invariant a % PGSIZE == 0 && RoundUp(newsz) <= a <= KERNBASE && Valid() && loose == old(loose) && ok
        invariant SubMap(owner, old(owner))
        invariant Unmapped(s, Abs(), dirs, d, lo, a / PGSIZE) && NothingAbove(s, d, oldsz, lo, a / PGSIZE)
        decreases oldsz - a
      {
        var t := WalkPgdir(d, a, false);
        Split(a);
        NextAddr(a);
        if t == None {
          UnmappedJump(s, Abs(), dirs, d, lo, a / PGSIZE, oldsz);
          a := (((Pdx(a) + 1) * DIRSPAN) % UINT + UINT - PGSIZE) % UINT;
        } else {
          ghost var s1 := Abs();
          var fine := UnmapPage(d, a, t.value);
          ok := ok && fine;
          UnmappedOne(s, s1, Abs(), dirs, d, lo, a / PGSIZE, oldsz);
        }
        a := (a + PGSIZE) % UINT;
      }
      r := newsz;
      UnmappedWhole(s, Abs(), dirs, d, newsz, oldsz, a);
    }

    /** allocuvm.  oom tells its two out-of-memory exits, after which no page of the range is mapped and
        every other translation is as before; only page tables, owned by the directory, may have been
        added.  remap is the panic of mappages, met exactly when a page of the range was mapped, unless
        memory runs out first. */
    method AllocUvm(d: nat, oldsz: nat, newsz: nat) returns (r: nat, ok: bool, remap: bool, ghost oom: bool)
      requires Valid() && d in dirs && oldsz < UINT && newsz < UINT
      modifies this`free, this`pages, this`owner, this`loose
      ensures Valid() && ok && (!remap ==> loose == old(loose))
      ensures newsz >= KERNBASE ==> r == 0 && !oom && !remap && unchanged(this)
      ensures newsz < KERNBASE && newsz < oldsz ==> r == oldsz && !oom && !remap && unchanged(this)
      ensures oldsz <= newsz < KERNBASE && !oom ==> (remap <==> !RangeClear(old(Abs()), d, oldsz, newsz))
      ensures oldsz <= newsz < KERNBASE && !remap ==> r == if oom then 0 else newsz
      ensures oldsz <= newsz < KERNBASE && !remap && !oom ==>
                forall v: nat :: InRange(v, oldsz, newsz) ==> UserPage(Abs(), d, v, old(free))
      ensures oom ==> !remap && RangeClear(Abs(), d, oldsz, newsz)
      ensures oom ==> |old(free)| < GrowNeed(old(Abs()), d, RoundUp(oldsz) / PGSIZE, PagesIn(newsz))
      ensures oldsz <= newsz < KERNBASE && !oom && !remap ==>
                |old(free)| >= GrowNeed(old(Abs()), d, RoundUp(oldsz) / PGSIZE, PagesIn(newsz))
      ensures oldsz <= newsz < KERNBASE && RangeClear(old(Abs()), d, oldsz, newsz) && newsz > 0 ==>
                (r == newsz <==> |old(free)| >= GrowNeed(old(Abs()), d, RoundUp(oldsz) / PGSIZE, PagesIn(newsz)))
      ensures !remap ==>
                forall e, v: nat :: e in dirs && !(e == d && InRange(v, oldsz, newsz) && newsz < KERNBASE) ==>
                  Trans(Abs(), e, v) == Trans(old(Abs()), e, v)
    {
      hide Good, Trans, Grown, RangeClear, GrowNeed, TablesGrown, HasTable, PagesIn;
      oom, ok, remap := false, true, false;
      if newsz >= KERNBASE {
        return 0, true, false, false;
      }
      if newsz < oldsz {
        return oldsz, true, false, false;
      }
      var a := RoundUp(oldsz);
      ghost var s, lo := Abs(), RoundUp(oldsz) / PGSIZE;
      GrownStart(s, dirs, d, lo, free);
      NeedStart(s, d, lo);
      while a < newsz
        invariant a % PGSIZE == 0 && RoundUp(oldsz) <= a <= KERNBASE && Valid() && loose == old(loose) && ok && !oom
        invariant !remap
        invariant a < newsz + PGSIZE && Grown(s, Abs(), dirs, d, lo, a / PGSIZE, old(free))
        invariant TablesGrown(s, Abs(), d, lo, a / PGSIZE)
        invariant |old(free)| == |free| + GrowNeed(s, d, lo, a / PGSIZE)
        invariant forall f :: f in free ==> f in old(free)
        decreases newsz - a
      {
        NextAddr(a);
        Split(a);
        ghost var s1 := Abs();
        PageBelow(newsz, a);
        NeedNext(s, s1, d, lo, a / PGSIZE);
        NeedGrows(s, d, lo, a / PGSIZE + 1, PagesIn(newsz));
        var mem := Kalloc();
        if mem == None {
          var _, fine := DeallocUvm(d, newsz, oldsz);
          ShrinkBack(s, s1, Abs(), dirs, d, oldsz, newsz, a, old(free));
          return 0, fine, false, true;
        }
        KallocTrans(s1, Abs());
        SameTables(s1, Abs(), d);
        GrownAhead(s, s1, dirs, d, lo, a / PGSIZE, old(free));
        var m := MapPage(d, a, mem.value, USERPERM);
        if m == Remap {
          NotClear(s, d, oldsz, newsz, a);
          return 0, true, true, false;
        }
        if m == NoTable {
          ghost var s2 := Abs();
          var _, fine := DeallocUvm(d, newsz, oldsz);
          GrownSame(s, s1, s2, dirs, d, lo, a / PGSIZE, old(free));
          ghost var s3 := Abs();
          ShrinkBack(s, s2, s3, dirs, d, oldsz, newsz, a, old(free));
          var freed := Kfree(mem.value);
          KallocTrans(s3, Abs());
          ClearSame(s3, Abs(), d, oldsz, newsz);
          return 0, fine && freed, false, true;
        }
        GrownOne(s, s1, Abs(), dirs, d, lo, a / PGSIZE, mem.value, old(free));
        GrownTable(s, s1, Abs(), d, lo, a / PGSIZE);
        a := (a + PGSIZE) % UINT;
      }
      r := newsz;
      GrownWhole(s, Abs(), dirs, d, oldsz, newsz, a, old(free));
      AllNeeded(s, d, lo, a, newsz);
    }

    /** freevm: every page the directory used is free again, and no other process notices. */
    method FreeVm(d: nat) returns (ok: bool)
      requires Valid() && d in dirs
      modifies this`free, this`pages, this`owner, this`loose, this`dirs
      ensures Valid() && ok && loose == old(loose) && dirs == old(dirs) - {d}
      ensures forall f :: f in old(owner) && BelongsTo(old(owner)[f], f, d) ==> f in free
      ensures forall e, v: nat :: e in dirs ==> Trans(Abs(), e, v) == Trans(old(Abs()), e, v)
    {
      hide Owned, Counted, Trans, Entry;
      var zero;
      zero, ok := DeallocUvm(d, KERNBASE, 0);
      UserHalfEmpty(Abs(), d);
      RetireGood(Abs(), owner, loose, dirs, all, d);
      ghost var s, skeleton := Abs(), Skeleton(owner, d);
      DirIsPage(s, owner, loose, dirs, d);
      loose, dirs, owner := loose + skeleton, dirs - {d}, owner - skeleton;
      ghost var mid, apart := owner, old(loose);
      assert forall k: nat :: HasTable(s, d, k) ==> TableOf(s, d, k) !in apart;
      var i: nat := 0;
      while i < NENTRIES
        invariant i <= NENTRIES && Valid() && ok && pages == s.pages && dirs == old(dirs) - {d} && owner == mid
        invariant apart <= loose && d in loose
        invariant forall k: nat :: i <= k && HasTable(s, d, k) ==> TableOf(s, d, k) in loose
        invariant forall f :: f in loose ==>
                    f in apart || f == d || exists k: nat :: i <= k && HasTable(s, d, k) && TableOf(s, d, k) == f
      {
        var pde := pages[d][i];
        if pde.Present? {
          assert HasTable(s, d, i) && TableOf(s, d, i) == pde.frame;
          var freed := Kfree(pde.frame);
          ok := ok && freed;
        }
        i := i + 1;
      }
      assert loose == apart + {d};
      var freed := Kfree(d);
      ok := ok && freed;
      assert loose == apart;
      KallocTrans(s, Abs());
      AllFree(old(Abs()), old(owner), loose, old(dirs), Abs(), owner, dirs, all, d);
    }

    /** One page of copyuvm's loop, up to its two exits for want of memory. */
    method CopyPage(d: nat, va: nat, perm: nat) returns (r: PageCopy)
      requires Valid() && d in dirs && va < KERNBASE && va % PGSIZE == 0 && Trans(Abs(), d, va / PGSIZE) == Absent
      modifies this`free, this`pages, this`owner, this`loose
      ensures Valid() && forall g :: g in free ==> g in old(free)
      ensures r == NoPage ==> old(free) == [] && unchanged(this)
      ensures r.Leaked? ==> && |old(free)| == 1 && !old(HasTable(Abs(), d, Pdx(va))) && pages == old(pages)
                            && r.f !in old(loose) && loose == old(loose) + {r.f}
      ensures r.Entered? ==>
                && r.f in old(free) && loose == old(loose) && Trans(Abs(), d, va / PGSIZE) == Present(r.f, perm)
                && |old(free)| == |free| + (if old(HasTable(Abs(), d, Pdx(va))) then 1 else 2)
                && (forall i: nat :: HasTable(Abs(), d, i) <==> old(HasTable(Abs(), d, i)) || i == Pdx(va))
                && forall e, v: nat :: e in dirs && (e, v) != (d, va / PGSIZE) ==>
                  Trans(Abs(), e, v) == Trans(old(Abs()), e, v)
    {
      hide Good, Trans;
      var mem := Kalloc();
      if mem == None {
        return NoPage;
      }
      KallocTrans(old(Abs()), Abs());
      var m := MapPage(d, va, mem.value, perm);
      if m == NoTable {
        return Leaked(mem.value);
      }
      assert loose == old(loose);
      return Entered(mem.value);
    }

    /** copyuvm's loop, and its exit when memory runs out, on a directory with nothing in the user half. */
    method CopyPages(pgdir: nat, d: nat, sz: nat, ghost kmap: seq<Kmap>) returns (r: CopyResult, ghost lost: set<nat>)
      requires Valid() && pgdir in dirs && d in dirs && d != pgdir && sz <= KERNBASE
      requires CopyOf(Abs(), Abs(), pgdir, d, 0, free) && TablesUpTo(Abs(), d, 0) && KernelMapped(Abs(), d, kmap)
      modifies this`free, this`pages, this`owner, this`loose, this`dirs
      ensures Valid() && |lost| <= 1 && lost !! old(loose) && (r != Failed ==> lost == {})
      ensures r == Panicked ==> !AllPresent(old(Abs()), pgdir, sz)
      ensures r.Copied? ==> && AllPresent(old(Abs()), pgdir, sz) && r.d == d && dirs == old(dirs) && loose == old(loose)
                            && CopyOf(old(Abs()), Abs(), pgdir, d, PagesIn(sz), old(free))
                            && KernelMapped(Abs(), d, kmap)
                            && |old(free)| >= Needed(PagesIn(sz)) && !ShortOfATable(|old(free)| + 1, PagesIn(sz))
      ensures r == Failed ==>
                && dirs == old(dirs) - {d} && loose == old(loose) + lost && |old(free)| < Needed(PagesIn(sz))
                && (lost != {} <==> ShortOfATable(|old(free)| + 1, PagesIn(sz)))
      ensures r != Panicked ==>
                forall e, v: nat :: e in old(dirs) && e != d ==> Trans(Abs(), e, v) == Trans(old(Abs()), e, v)
    {
      hide Good, Trans, CopyOf, AllPresent, HasTable, Needed, PagesIn, ShortOfATable, KernelMapped, TablesUpTo;
      hide BelongsTo;
      lost := {};
      ghost var s := Abs();
      ghost var n := |old(free)|;
      NeedNone();
      var i: nat := 0;
      while i < sz
        invariant i % PGSIZE == 0 && i <= KERNBASE && i / PGSIZE <= PagesIn(sz) && Valid() && d in dirs
        invariant dirs == old(dirs) && loose == old(loose) && lost == {}
        invariant CopyOf(s, Abs(), pgdir, d, i / PGSIZE, old(free)) && TablesUpTo(Abs(), d, i / PGSIZE)
        invariant |free| + Needed(i / PGSIZE) == n && forall f :: f in free ==> f in old(free)
        invariant KernelMapped(Abs(), d, kmap)
        invariant forall e, v: nat :: e in dirs && e != d ==> Trans(Abs(), e, v) == Trans(s, e, v)
        decreases sz - i
      {
        NextAddr(i);
        Split(i);
        PageBelow(sz, i);
        var t := WalkPgdir(pgdir, i, false);
        TransEntry(Abs(), pgdir, i);
        if t == None || pages[t.value][Ptx(i)] == Absent {
          NotPresent(s, pgdir, sz, i);
          return Panicked, {};
        }
        var pte := pages[t.value][Ptx(i)];
        ghost var s1 := Abs();
        CopyAhead(s, s1, pgdir, d, i / PGSIZE, old(free));
        NewTable(s1, d, i / PGSIZE);
        NeededNext(i / PGSIZE);
        var m := CopyPage(d, i, pte.perm);
        if m == NoPage {
          ShortOfAPage(n, i / PGSIZE, PagesIn(sz));
          var fine := FreeVm(d);
          return Failed, {};
        }
        if m.Leaked? {
          ShortHere(n, i / PGSIZE, PagesIn(sz));
          KallocTrans(s1, Abs());
          var fine := FreeVm(d);
          return Failed, {m.f};
        }
        CopyOne(s, s1, Abs(), pgdir, d, i / PGSIZE, old(free), m.f);
        KernelKept(s1, Abs(), d, i / PGSIZE, kmap);
        TablesOne(s1, Abs(), d, i / PGSIZE);
        i := i + PGSIZE;
      }
      PagesDone(sz, i);
      EnoughPages(n, PagesIn(sz));
      CopyWhole(s, Abs(), pgdir, d, sz, old(free));
      return Copied(d), {};
    }

    /** copyuvm.  Failed is its out-of-memory exit; lost is the page it then leaks: the one just
        allocated, when no page is left for the table it goes in. */
    method CopyUvm(kmap: seq<Kmap>, pgdir: nat, sz: nat) returns (r: CopyResult, ghost lost: set<nat>)
      requires Valid() && KernelHalf(kmap) && pgdir in dirs && sz <= KERNBASE
      modifies this`free, this`pages, this`owner, this`loose, this`dirs
      ensures Valid()
      ensures r == Panicked ==> !AllPresent(old(Abs()), pgdir, sz) || !Disjoint(kmap)
      ensures r.Copied? ==> r.d !in old(dirs) && dirs == old(dirs) + {r.d} && loose == old(loose)
      ensures r.Copied? ==> AllPresent(old(Abs()), pgdir, sz) && Disjoint(kmap)
      ensures r == Failed ==> |old(free)| <= |KernelTables(kmap)| + Needed(PagesIn(sz))
      ensures r.Copied? ==>
                CopyOf(old(Abs()), Abs(), pgdir, r.d, PagesIn(sz), old(free)) && KernelMapped(Abs(), r.d, kmap)
      ensures r == Failed ==> dirs == old(dirs) && loose == old(loose) + lost && lost !! old(loose) && |lost| <= 1
      ensures r != Failed ==> lost == {}
      ensures r != Panicked ==> forall e, v: nat :: e in old(dirs) ==> Trans(Abs(), e, v) == Trans(old(Abs()), e, v)
      ensures Disjoint(kmap) ==>
                (r.Copied? <==> && AllPresent(old(Abs()), pgdir, sz)
                                && |old(free)| > |KernelTables(kmap)| + Needed(PagesIn(sz)))
      ensures Disjoint(kmap) && AllPresent(old(Abs()), pgdir, sz) ==>
                (lost != {} <==> ShortOfATable(|old(free)| - |KernelTables(kmap)|, PagesIn(sz)))
    {
      hide Good, Trans, CopyOf, AllPresent, HasTable, Needed, PagesIn, ShortOfATable, KernelMapped, KernelTables;
      hide MapsTo;
      hide KernelPte, KernelHalf, Disjoint, TablesUpTo;
      var kvm := SetupKvm(kmap);
      if kvm == Overlap {
        return Panicked, {};
      }
      if kvm == Short {
        NoDirectory(|old(free)| - |KernelTables(kmap)|, PagesIn(sz));
        return Failed, {};
      }
      ghost var s := Abs();
      CopyStart(s, pgdir, kvm.d, free, kmap);
      SameParent(old(Abs()), s, pgdir, sz);
      r, lost := CopyPages(pgdir, kvm.d, sz, kmap);
      if r.Copied? { SameCopy(old(Abs()), s, Abs(), pgdir, kvm.d, PagesIn(sz), s.free, old(free)); }
      assert r == Failed ==> dirs == old(dirs);
    }
  }

  /** A run in which fork loses a page: one process with one page, and two pages more than the kernel's
      tables take left on the free list. */
  method LosesAPage(kmap: seq<Kmap>, tables: nat) returns (m: Memory, r: CopyResult, ghost lost: set<nat>)
    requires KernelHalf(kmap) && Disjoint(kmap) && tables == |KernelTables(kmap)|
    ensures fresh(m) && m.Valid() && r == Failed && |lost| == 1 && lost == m.loose
  {
    hide Good, Trans, HasTable, KernelTables, KernelPte;
    TablesFew(kmap);
    m := new Memory(1, 1, 2 * tables + 6);
    var kvm := m.SetupKvm(kmap);
    UserHalfAbsent(kmap, 0);
    NoUserTable(kmap, 0);
    MapsGive(m.Abs(), kvm.d, kmap, 0);
    var page := m.CopyPage(kvm.d, 0, USERPERM);
    OnePage(m.Abs(), kvm.d);
    r, lost := m.CopyUvm(kmap, kvm.d, 1);
  }

  lemma TablesFew(kmap: seq<Kmap>)
    ensures |KernelTables(kmap)| <= NENTRIES
  {
    FewBelow(KernelTables(kmap), NENTRIES);
  }

  lemma OnePage(s: Mem, d: nat)
    requires Trans(s, d, 0).Present?
    ensures AllPresent(s, d, 1) && ShortOfATable(2, PagesIn(1)) && Needed(PagesIn(1)) == 2
  {
    hide Trans;
    assert 0 % NENTRIES == 0 && Needed(0) == 0;
  }

  /** The pages that deallocuvm(oldsz, newsz) covers: from newsz rounded up to below oldsz. */
  ghost predicate InRange(v: nat, newsz: nat, oldsz: nat) {
    newsz < oldsz && RoundUp(newsz) <= v * PGSIZE < oldsz
  }

  /** Directory d lost exactly the pages v with lo <= v < hi; nothing else changed anywhere. */
  ghost predicate Unmapped(s: Mem, s': Mem, dirs: set<nat>, d: nat, lo: nat, hi: nat) {
    && (forall v: nat :: lo <= v < hi ==> Trans(s', d, v) == Absent)
    && (forall e, v: nat :: e in dirs && !(e == d && lo <= v < hi) ==> Trans(s', e, v) == Trans(s, e, v))
  }

  /** Between oldsz and page hi there was nothing to unmap. */
  ghost predicate NothingAbove(s: Mem, d: nat, oldsz: nat, lo: nat, hi: nat) {
    forall v: nat :: lo <= v < hi && oldsz <= v * PGSIZE ==> Trans(s, d, v) == Absent
  }

  lemma UnmappedStart(s: Mem, dirs: set<nat>, d: nat, lo: nat)
    ensures Unmapped(s, s, dirs, d, lo, lo)
  {
  }

  lemma UnmappedOne(s: Mem, s1: Mem, s2: Mem, dirs: set<nat>, d: nat, lo: nat, v: nat, oldsz: nat)
    requires Unmapped(s, s1, dirs, d, lo, v) && lo <= v && d in dirs && v * PGSIZE < oldsz
    requires NothingAbove(s, d, oldsz, lo, v)
    requires Trans(s2, d, v) == Absent
    requires forall e, w: nat :: e in dirs && (e, w) != (d, v) ==> Trans(s2, e, w) == Trans(s1, e, w)
    ensures Unmapped(s, s2, dirs, d, lo, v + 1) && NothingAbove(s, d, oldsz, lo, v + 1)
  {
    hide Trans;
    forall w: nat | lo <= w < v + 1 ensures Trans(s2, d, w) == Absent {
      if w != v { assert (d, w) != (d, v); }
    }
  }

  /** An absent table means that every page up to the next table is absent. */
  lemma UnmappedJump(s: Mem, s': Mem, dirs: set<nat>, d: nat, lo: nat, v: nat, oldsz: nat)
    requires Unmapped(s, s', dirs, d, lo, v) && lo <= v && d in dirs && !HasTable(s', d, v / NENTRIES)
    requires NothingAbove(s, d, oldsz, lo, v)
    ensures Unmapped(s, s', dirs, d, lo, (v / NENTRIES + 1) * NENTRIES)
    ensures NothingAbove(s, d, oldsz, lo, (v / NENTRIES + 1) * NENTRIES)
  {
    forall w: nat | v <= w < (v / NENTRIES + 1) * NENTRIES ensures Trans(s', d, w) == Absent == Trans(s, d, w) {
      assert w / NENTRIES == v / NENTRIES;
    }
  }

  lemma UnmappedWhole(s: Mem, s': Mem, dirs: set<nat>, d: nat, newsz: nat, oldsz: nat, a: nat)
    requires newsz < oldsz && RoundUp(newsz) <= a && a % PGSIZE == 0 && oldsz <= a
    requires Unmapped(s, s', dirs, d, RoundUp(newsz) / PGSIZE, a / PGSIZE)
    requires NothingAbove(s, d, oldsz, RoundUp(newsz) / PGSIZE, a / PGSIZE)
    ensures forall e, v: nat :: e in dirs ==>
              Trans(s', e, v) == if e == d && InRange(v, newsz, oldsz) then Absent else Trans(s, e, v)
  {
    hide Trans;
  }

  /** The address arithmetic of deallocuvm's loop below KERNBASE, free of wrap-around. */
  lemma NextAddr(a: nat)
    requires a % PGSIZE == 0 && a < KERNBASE
    ensures var jump := (((Pdx(a) + 1) * DIRSPAN) % UINT + UINT - PGSIZE) % UINT;
            && (jump + PGSIZE) % UINT == (Pdx(a) + 1) * DIRSPAN <= KERNBASE
            && (Pdx(a) + 1) * DIRSPAN / PGSIZE == (a / PGSIZE / NENTRIES + 1) * NENTRIES
            && (Pdx(a) + 1) * DIRSPAN > a && (Pdx(a) + 1) * DIRSPAN % PGSIZE == 0
    ensures (a + PGSIZE) % UINT == a + PGSIZE <= KERNBASE && (a + PGSIZE) / PGSIZE == a / PGSIZE + 1
  {
  }

  ghost predicate SubMap(m: map<nat, Use>, n: map<nat, Use>) {
    forall f :: f in m ==> f in n && m[f] == n[f]
  }

  /** Page f is the directory d itself, one of its tables, or a page mapped through it. */
  ghost predicate BelongsTo(u: Use, f: nat, d: nat) {
    match u
    case Dir => f == d
    case Table(e, _) => e == d
    case User(e, _, _) => e == d
  }

  /** With d no longer a directory and its pages not loose, every page that belonged to d is free. */
  lemma AllFree(s: Mem, owner: map<nat, Use>, loose: set<nat>, dirs: set<nat>, s': Mem, owner': map<nat, Use>,
                dirs': set<nat>, all: set<nat>, d: nat)
    requires Good(s, owner, loose, dirs, all) && Good(s', owner', loose, dirs', all) && dirs' == dirs - {d}
    requires SubMap(owner', owner)
    ensures forall f :: f in owner && BelongsTo(owner[f], f, d) ==> f in s'.free
  {
    hide Entry, HasTable;
    forall f | f in owner && BelongsTo(owner[f], f, d) ensures f in s'.free {
      assert f in owner' ==> UsedAs(s', owner'[f], f, dirs');
    }
  }

  lemma UserHalfEmpty(s: Mem, d: nat)
    requires forall v: nat :: InRange(v, 0, KERNBASE) ==> Trans(s, d, v) == Absent
    ensures forall i: nat, j: nat :: i < USERDIRS ==> Entry(s, d, i, j) == Absent
  {
    forall i: nat, j: nat | i < USERDIRS ensures Entry(s, d, i, j) == Absent {
      if j < NENTRIES {
        var v := i * NENTRIES + j;
        assert v / NENTRIES == i && v % NENTRIES == j && RoundUp(0) == 0;
        assert InRange(v, 0, KERNBASE);
        assert Trans(s, d, v) == Absent;
      }
    }
  }

  // ---- allocuvm ----

  /** Page v is a user page that came from the free list. */
  ghost predicate UserPage(s: Mem, d: nat, v: nat, from: seq<nat>) {
    Trans(s, d, v).Present? && Trans(s, d, v).perm == USERPERM && Trans(s, d, v).frame in from
  }

  predicate UsesTable(lo: nat, hi: nat, i: nat) {
    lo < hi && lo / NENTRIES <= i <= (hi - 1) / NENTRIES
  }

  /** The tables for pages lo <= v < hi that directory d does not have. */
  ghost function MissingTables(s: Mem, d: nat, lo: nat, hi: nat): set<nat> {
    set i: nat | i <= hi && UsesTable(lo, hi, i) && !HasTable(s, d, i)
  }

  /** The free pages that growing by pages lo <= v < hi takes. */
  ghost function GrowNeed(s: Mem, d: nat, lo: nat, hi: nat): nat {
    if lo < hi then hi - lo + |MissingTables(s, d, lo, hi)| else 0
  }

  /** Directory d has the tables it had and those of pages lo <= v < hi. */
  ghost predicate TablesGrown(s: Mem, s': Mem, d: nat, lo: nat, hi: nat) {
    forall i: nat :: HasTable(s', d, i) <==> HasTable(s, d, i) || UsesTable(lo, hi, i)
  }

  lemma NeedStart(s: Mem, d: nat, lo: nat)
    ensures GrowNeed(s, d, lo, lo) == 0 && TablesGrown(s, s, d, lo, lo)
  {
  }

  lemma MissingNext(s: Mem, d: nat, lo: nat, v: nat)
    requires lo <= v
    ensures MissingTables(s, d, lo, v + 1)
            == MissingTables(s, d, lo, v) + if HasTable(s, d, v / NENTRIES) then {} else {v / NENTRIES}
    ensures v / NENTRIES in MissingTables(s, d, lo, v) <==>
              UsesTable(lo, v, v / NENTRIES) && !HasTable(s, d, v / NENTRIES)
  {
    hide HasTable;
    assert lo < v ==> (v - 1) / NENTRIES <= v / NENTRIES <= (v - 1) / NENTRIES + 1;
  }

  /** One page more takes one page, and one for its table if there is none. */
  lemma NeedNext(s: Mem, s1: Mem, d: nat, lo: nat, v: nat)
    requires lo <= v && TablesGrown(s, s1, d, lo, v)
    ensures GrowNeed(s, d, lo, v + 1) == GrowNeed(s, d, lo, v) + if HasTable(s1, d, v / NENTRIES) then 1 else 2
  {
    hide HasTable, UsesTable, MissingTables;
    MissingNext(s, d, lo, v);
    NoneMissing(s, d, lo);
    var M, t := MissingTables(s, d, lo, v), v / NENTRIES;
    assert t in M ==> M + {t} == M;
    assert M + {} == M;
  }

  lemma NoneMissing(s: Mem, d: nat, lo: nat)
    ensures MissingTables(s, d, lo, lo) == {} && forall i :: !UsesTable(lo, lo, i)
  {
  }

  lemma {:induction false} NeedGrows(s: Mem, d: nat, lo: nat, v: nat, hi: nat)
    requires lo <= v <= hi
    ensures GrowNeed(s, d, lo, v) <= GrowNeed(s, d, lo, hi)
    decreases hi - v
  {
    hide MissingTables;
    if v < hi {
      MissingNext(s, d, lo, v);
      NoneMissing(s, d, lo);
      var M, t := MissingTables(s, d, lo, v), v / NENTRIES;
      assert |M + {t}| >= |M| && M + {} == M;
      NeedGrows(s, d, lo, v + 1, hi);
    }
  }

  lemma GrownTable(s: Mem, s1: Mem, s2: Mem, d: nat, lo: nat, v: nat)
    requires lo <= v && TablesGrown(s, s1, d, lo, v)
    requires forall i: nat :: HasTable(s2, d, i) <==> HasTable(s1, d, i) || i == v / NENTRIES
    ensures TablesGrown(s, s2, d, lo, v + 1)
  {
    hide HasTable;
  }

  lemma SameTables(s: Mem, s': Mem, d: nat)
    requires s'.pages == s.pages
    ensures forall i: nat :: HasTable(s', d, i) <==> HasTable(s, d, i)
  {
  }

  lemma AllNeeded(s: Mem, d: nat, lo: nat, a: nat, newsz: nat)
    requires a % PGSIZE == 0 && newsz <= a && lo <= a / PGSIZE && (a < newsz + PGSIZE || lo == a / PGSIZE)
    ensures GrowNeed(s, d, lo, a / PGSIZE) == GrowNeed(s, d, lo, PagesIn(newsz))
  {
    hide MissingTables;
    assert PagesIn(newsz) <= a / PGSIZE;
  }

  /** No page that allocuvm(oldsz, newsz) adds is mapped. */
  ghost predicate RangeClear(s: Mem, d: nat, oldsz: nat, newsz: nat) {
    forall v: nat :: InRange(v, oldsz, newsz) ==> Trans(s, d, v) == Absent
  }

  lemma ClearSame(s: Mem, s': Mem, d: nat, oldsz: nat, newsz: nat)
    requires RangeClear(s, d, oldsz, newsz) && forall e, v: nat :: Trans(s', e, v) == Trans(s, e, v)
    ensures RangeClear(s', d, oldsz, newsz)
  {
    hide Trans;
  }

  lemma NotClear(s: Mem, d: nat, oldsz: nat, newsz: nat, a: nat)
    requires a % PGSIZE == 0 && RoundUp(oldsz) <= a < newsz < KERNBASE && oldsz <= newsz
    requires Trans(s, d, a / PGSIZE) != Absent
    ensures !RangeClear(s, d, oldsz, newsz)
  {
    hide Trans;
    assert oldsz < newsz;
    assert InRange(a / PGSIZE, oldsz, newsz);
  }

  /** Directory d gained user pages lo <= v < hi, which were absent; nothing else changed anywhere. */
  ghost predicate Grown(s: Mem, s': Mem, dirs: set<nat>, d: nat, lo: nat, hi: nat, from: seq<nat>) {
    && (forall v: nat :: lo <= v < hi ==> UserPage(s', d, v, from))
    && (forall v: nat :: lo <= v < hi ==> Trans(s, d, v) == Absent)
    && (forall e, v: nat :: e in dirs && !(e == d && lo <= v < hi) ==> Trans(s', e, v) == Trans(s, e, v))
  }

  lemma GrownStart(s: Mem, dirs: set<nat>, d: nat, lo: nat, from: seq<nat>)
    ensures Grown(s, s, dirs, d, lo, lo, from)
  {
  }

  lemma KallocTrans(s: Mem, s': Mem)
    requires s'.pages == s.pages
    ensures forall e, v: nat :: Trans(s', e, v) == Trans(s, e, v)
  {
  }

  lemma GrownAhead(s: Mem, s1: Mem, dirs: set<nat>, d: nat, lo: nat, v: nat, from: seq<nat>)
    requires Grown(s, s1, dirs, d, lo, v, from) && d in dirs
    ensures Trans(s1, d, v) == Trans(s, d, v)
  {
    hide Trans;
  }

  lemma GrownSame(s: Mem, s1: Mem, s2: Mem, dirs: set<nat>, d: nat, lo: nat, hi: nat, from: seq<nat>)
    requires Grown(s, s1, dirs, d, lo, hi, from) && s2.pages == s1.pages
    ensures Grown(s, s2, dirs, d, lo, hi, from)
  {
    KallocTrans(s1, s2);
    forall v: nat | lo <= v < hi ensures UserPage(s2, d, v, from) { assert UserPage(s1, d, v, from); }
  }

  lemma GrownOne(s: Mem, s1: Mem, s2: Mem, dirs: set<nat>, d: nat, lo: nat, v: nat, f: nat, from: seq<nat>)
    requires Grown(s, s1, dirs, d, lo, v, from) && lo <= v && d in dirs && f in from && Trans(s, d, v) == Absent
    requires Trans(s2, d, v) == Present(f, USERPERM)
    requires forall e, w: nat :: e in dirs && (e, w) != (d, v) ==> Trans(s2, e, w) == Trans(s1, e, w)
    ensures Grown(s, s2, dirs, d, lo, v + 1, from)
  {
    hide Trans;
    forall w: nat | lo <= w < v + 1 ensures UserPage(s2, d, w, from) {
      if w != v { assert (d, w) != (d, v) && UserPage(s1, d, w, from); }
    }
    forall e, w: nat | e in dirs && !(e == d && lo <= w < v + 1) ensures Trans(s2, e, w) == Trans(s, e, w) {
      assert (e, w) != (d, v);
    }
  }

  lemma GrownWhole(s: Mem, s': Mem, dirs: set<nat>, d: nat, oldsz: nat, newsz: nat, a: nat, from: seq<nat>)
    requires Grown(s, s', dirs, d, RoundUp(oldsz) / PGSIZE, a / PGSIZE, from) && oldsz <= newsz < KERNBASE
    requires a % PGSIZE == 0 && RoundUp(oldsz) <= a && newsz <= a && (a < newsz + PGSIZE || a == RoundUp(oldsz))
    ensures RangeClear(s, d, oldsz, newsz) && forall v: nat :: InRange(v, oldsz, newsz) ==> UserPage(s', d, v, from)
    ensures forall e, v: nat :: e in dirs && !(e == d && InRange(v, oldsz, newsz)) ==> Trans(s', e, v) == Trans(s, e, v)
  {
    hide Trans;
  }

  /** Unmapping the whole range after a partial growth leaves nothing in it and the rest as it was. */
  lemma ShrinkBack(s: Mem, s1: Mem, s2: Mem, dirs: set<nat>, d: nat, oldsz: nat, newsz: nat, a: nat, from: seq<nat>)
    requires Grown(s, s1, dirs, d, RoundUp(oldsz) / PGSIZE, a / PGSIZE, from) && a % PGSIZE == 0 && a < newsz
    requires RoundUp(oldsz) <= a
    requires forall e, v: nat :: e in dirs ==>
               Trans(s2, e, v) == if e == d && InRange(v, oldsz, newsz) then Absent else Trans(s1, e, v)
    requires oldsz < newsz && d in dirs
    ensures RangeClear(s2, d, oldsz, newsz)
    ensures forall e, v: nat :: e in dirs && !(e == d && InRange(v, oldsz, newsz)) ==> Trans(s2, e, v) == Trans(s, e, v)
  {
    hide Trans;
  }

  // ---- copyuvm ----

  /** The number of pages that sz bytes take. */
  function PagesIn(sz: nat): nat { (sz + PGSIZE - 1) / PGSIZE }

  /** The pages and tables that the first v pages of a new directory take. */
  function Needed(v: nat): nat { v + (v + NENTRIES - 1) / NENTRIES }

  /** With free pages left by the kernel's tables, a copy of n pages runs out at a table: after the
      directory there is exactly one page more than the pages before some table's first page take. */
  ghost predicate ShortOfATable(free: int, n: nat) {
    exists v: nat :: v < n && v % NENTRIES == 0 && free == Needed(v) + 2
  }

  ghost predicate AllPresent(s: Mem, d: nat, sz: nat) {
    forall v: nat :: v < PagesIn(sz) ==> Trans(s, d, v).Present?
  }

  predicate SamePerm(p: Pte, q: Pte) {
    p.Present? && q.Present? && p.perm == q.perm
  }

  /** d maps the first v pages of pgdir with the same permissions, to pages from the free list, and
      nothing else. */
  ghost predicate CopyOf(s: Mem, s': Mem, pgdir: nat, d: nat, v: nat, from: seq<nat>) {
    && (forall w: nat :: w < v ==> SamePerm(Trans(s, pgdir, w), Trans(s', d, w)) && Trans(s', d, w).frame in from)
    && (forall w: nat :: v <= w < USERPAGES ==> Trans(s', d, w) == Absent)
  }

  /** The translations of directory d are those of kmap, and it has no other tables. */
  ghost predicate MapsTo(s: Mem, d: nat, kmap: seq<Kmap>) {
    && (forall v: nat :: Trans(s, d, v) == KernelPte(kmap, v))
    && (forall i: nat :: HasTable(s, d, i) <==> i in KernelTables(kmap))
  }

  ghost predicate KernelMapped(s: Mem, d: nat, kmap: seq<Kmap>) {
    forall v: nat :: v >= USERPAGES ==> Trans(s, d, v) == KernelPte(kmap, v)
  }

  lemma MapsNothing(s: Mem, d: nat)
    requires (forall v: nat :: Trans(s, d, v) == Absent) && forall i: nat :: !HasTable(s, d, i)
    ensures MapsTo(s, d, [])
  {
    hide Trans, HasTable;
    NoTables();
  }

  lemma MapsNone(s: Mem, d: nat, kmap: seq<Kmap>, i: nat)
    requires i < |kmap| && MapsTo(s, d, kmap[..i])
    ensures MapsTo(s, d, Partly(kmap, i, 0))
  {
    hide Trans, HasTable, KernelTables, KernelPte, Partly;
    TablesNone(kmap, i);
    forall v: nat ensures Trans(s, d, v) == KernelPte(Partly(kmap, i, 0), v) { PartlyNone(kmap, i, v); }
  }

  lemma MapsGive(s: Mem, d: nat, kmap: seq<Kmap>, v: nat)
    requires MapsTo(s, d, kmap)
    ensures Trans(s, d, v) == KernelPte(kmap, v)
    ensures HasTable(s, d, v / NENTRIES) <==> v / NENTRIES in KernelTables(kmap)
  {
    hide Trans, HasTable, KernelTables, KernelPte;
  }

  lemma MapsNext(s: Mem, s': Mem, d: nat, kmap: seq<Kmap>, i: nat, j: nat)
    requires i < |kmap| && j < kmap[i].n && InKernel(kmap[i]) && MapsTo(s, d, Partly(kmap, i, j))
    requires Trans(s', d, kmap[i].first + j) == Present(kmap[i].frame + j, kmap[i].perm)
    requires forall v: nat :: v != kmap[i].first + j ==> Trans(s', d, v) == Trans(s, d, v)
    requires forall t: nat :: HasTable(s', d, t) <==> HasTable(s, d, t) || t == (kmap[i].first + j) / NENTRIES
    ensures MapsTo(s', d, Partly(kmap, i, j + 1))
    ensures var t := (kmap[i].first + j) / NENTRIES;
            |KernelTables(Partly(kmap, i, j + 1))|
            == |KernelTables(Partly(kmap, i, j))| + if HasTable(s, d, t) then 0 else 1
  {
    hide Trans, HasTable, KernelTables, KernelPte, Partly;
    TablesNext(kmap, i, j);
    var T, t := KernelTables(Partly(kmap, i, j)), (kmap[i].first + j) / NENTRIES;
    assert t in T ==> T + {t} == T;
    forall v: nat ensures Trans(s', d, v) == KernelPte(Partly(kmap, i, j + 1), v) { PartlyNext(kmap, i, j, v); }
  }

  lemma KernelKept(s: Mem, s': Mem, d: nat, v: nat, kmap: seq<Kmap>)
    requires KernelMapped(s, d, kmap) && v < USERPAGES && forall w: nat :: w != v ==> Trans(s', d, w) == Trans(s, d, w)
    ensures KernelMapped(s', d, kmap)
  {
    hide Trans, KernelPte;
  }

  ghost predicate TablesUpTo(s: Mem, d: nat, v: nat) {
    forall i: nat :: i < USERDIRS ==> (HasTable(s, d, i) <==> i * NENTRIES < v)
  }

  lemma NeededNext(v: nat)
    ensures Needed(v + 1) == Needed(v) + if v % NENTRIES == 0 then 2 else 1
  {
  }

  lemma NeededGrows(v: nat, w: nat)
    requires v <= w
    ensures Needed(v) <= Needed(w)
  {
  }

  lemma NoDirectory(left: int, n: nat)
    requires left <= 0
    ensures !ShortOfATable(left, n) && Needed(n) >= 0
  {
  }

  lemma ShortOfAPage(n: nat, v: nat, total: nat)
    requires n == Needed(v) && v < total
    ensures !ShortOfATable(n + 1, total) && n < Needed(total)
  {
    NeededNext(v);
    NeededGrows(v + 1, total);
    forall w: nat | w % NENTRIES == 0 ensures n + 1 != Needed(w) + 2 {
      NeededNext(w);
      if w < v { NeededGrows(w + 1, v); } else { NeededGrows(v, w); }
    }
  }

  lemma ShortHere(n: nat, v: nat, total: nat)
    requires n == Needed(v) + 1 && v < total && v % NENTRIES == 0
    ensures ShortOfATable(n + 1, total) && n < Needed(total)
  {
    NeededNext(v);
    NeededGrows(v + 1, total);
  }

  lemma EnoughPages(n: nat, total: nat)
    requires n >= Needed(total)
    ensures !ShortOfATable(n + 1, total)
  {
    forall w: nat | w < total && w % NENTRIES == 0 ensures n + 1 != Needed(w) + 2 {
      NeededNext(w);
      NeededGrows(w + 1, total);
    }
  }

  lemma PageBelow(sz: nat, i: nat)
    requires i < sz && i % PGSIZE == 0
    ensures i / PGSIZE < PagesIn(sz)
  {
  }

  lemma PagesDone(sz: nat, i: nat)
    requires sz <= i && i % PGSIZE == 0 && i / PGSIZE <= PagesIn(sz)
    ensures i / PGSIZE == PagesIn(sz)
  {
  }

  lemma NeedNone()
    ensures Needed(0) == 0
  {
  }

  lemma CopyStart(s: Mem, pgdir: nat, d: nat, from: seq<nat>, kmap: seq<Kmap>)
    requires MapsTo(s, d, kmap) && KernelHalf(kmap)
    ensures CopyOf(s, s, pgdir, d, 0, from) && TablesUpTo(s, d, 0) && KernelMapped(s, d, kmap)
  {
    hide Trans, HasTable, KernelPte, KernelTables;
    forall w: nat | w < USERPAGES ensures Trans(s, d, w) == Absent { UserHalfAbsent(kmap, w); }
    forall i: nat | i < USERDIRS ensures !HasTable(s, d, i) { NoUserTable(kmap, i); }
  }

  lemma SameParent(s0: Mem, s: Mem, pgdir: nat, sz: nat)
    requires forall v: nat :: Trans(s, pgdir, v) == Trans(s0, pgdir, v)
    ensures AllPresent(s, pgdir, sz) <==> AllPresent(s0, pgdir, sz)
  {
    hide Trans, PagesIn;
  }

  lemma SameCopy(s0: Mem, s: Mem, s': Mem, pgdir: nat, d: nat, v: nat, from: seq<nat>, all: seq<nat>)
    requires CopyOf(s, s', pgdir, d, v, from) && (forall f :: f in from ==> f in all)
    requires forall w: nat :: Trans(s, pgdir, w) == Trans(s0, pgdir, w)
    ensures CopyOf(s0, s', pgdir, d, v, all)
  {
    hide Trans;
  }

  lemma CopyAhead(s: Mem, s1: Mem, pgdir: nat, d: nat, v: nat, from: seq<nat>)
    requires CopyOf(s, s1, pgdir, d, v, from) && v < USERPAGES
    ensures Trans(s1, d, v) == Absent
  {
    hide Trans;
  }

  lemma CopyOne(s: Mem, s1: Mem, s2: Mem, pgdir: nat, d: nat, v: nat, from: seq<nat>, f: nat)
    requires CopyOf(s, s1, pgdir, d, v, from) && Trans(s, pgdir, v).Present? && f in from
    requires Trans(s2, d, v) == Present(f, Trans(s, pgdir, v).perm)
    requires forall w: nat :: w != v ==> Trans(s2, d, w) == Trans(s1, d, w)
    ensures CopyOf(s, s2, pgdir, d, v + 1, from)
  {
    hide Trans;
  }

  /** The first page of each table finds it missing, the others find it there. */
  lemma NewTable(s: Mem, d: nat, v: nat)
    requires TablesUpTo(s, d, v) && v < USERPAGES
    ensures HasTable(s, d, v / NENTRIES) <==> v % NENTRIES != 0
  {
    hide HasTable;
  }

  lemma TablesOne(s1: Mem, s2: Mem, d: nat, v: nat)
    requires TablesUpTo(s1, d, v) && v < USERPAGES
    requires forall i: nat :: HasTable(s2, d, i) <==> HasTable(s1, d, i) || i == v / NENTRIES
    ensures TablesUpTo(s2, d, v + 1)
  {
    hide HasTable;
  }

  lemma NotPresent(s: Mem, pgdir: nat, sz: nat, i: nat)
    requires i < sz && i % PGSIZE == 0 && Trans(s, pgdir, i / PGSIZE) == Absent
    ensures !AllPresent(s, pgdir, sz)
  {
    hide Trans;
    PageBelow(sz, i);
  }

  lemma CopyWhole(s: Mem, s': Mem, pgdir: nat, d: nat, sz: nat, from: seq<nat>)
    requires CopyOf(s, s', pgdir, d, PagesIn(sz), from)
    ensures AllPresent(s, pgdir, sz)
  {
    hide Trans, PagesIn;
  }

  lemma DirIsPage(s: Mem, owner: map<nat, Use>, loose: set<nat>, dirs: set<nat>, d: nat)
    requires Owned(s, owner, loose, dirs) && d in dirs
    ensures IsPage(s, d)
  {
  }

  lemma OwnedNotLoose(s: Mem, owner: map<nat, Use>, loose: set<nat>, dirs: set<nat>, f: nat)
    requires Owned(s, owner, loose, dirs) && f in owner
    ensures f !in loose
  {
  }

  /** A page number is its two indices. */
  lemma SamePage(v: nat, w: nat)
    ensures v / NENTRIES == w / NENTRIES && v % NENTRIES == w % NENTRIES ==> v == w
  {
  }
}
