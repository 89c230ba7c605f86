/** Two-level page tables over the list of free physical pages, as values.  Pages are numbered;
    a page used as a directory or a table holds 1024 entries. */
module PageTables {

  const NENTRIES: nat := 1024
  const USERDIRS: nat := 512  // PDX(KERNBASE): directory entries below it are the user half

  datatype Pte = Absent | Present(frame: nat, perm: nat)

  /** What a page in use is used for. */
  datatype Use = Dir | Table(d: nat, i: nat) | User(d: nat, i: nat, j: nat)

  datatype Mem = Mem(free: seq<nat>, pages: map<nat, seq<Pte>>)

  ghost predicate IsPage(s: Mem, f: nat) {
    f in s.pages && |s.pages[f]| == NENTRIES
  }

  /** Directory d has a table for directory index i. */
  ghost predicate HasTable(s: Mem, d: nat, i: nat) {
    IsPage(s, d) && i < NENTRIES && s.pages[d][i].Present?
  }

  ghost function TableOf(s: Mem, d: nat, i: nat): nat
    requires HasTable(s, d, i)
  {
    s.pages[d][i].frame
  }

  /** The translation that the hardware would find for entry j of table i of directory d. */
  ghost function Entry(s: Mem, d: nat, i: nat, j: nat): Pte {
    if HasTable(s, d, i) && IsPage(s, TableOf(s, d, i)) && j < NENTRIES then s.pages[TableOf(s, d, i)][j] else Absent
  }

  /** owner says what each page in use is used for; loose pages are in the hands of running code. */
  ghost predicate Owned(s: Mem, owner: map<nat, Use>, loose: set<nat>, dirs: set<nat>) {
    && (forall d :: d in dirs ==> IsPage(s, d) && d in owner && owner[d] == Dir)
    && (forall f :: f in owner ==> UsedAs(s, owner[f], f, dirs))
    && (forall d, i: nat :: d in dirs && HasTable(s, d, i) ==> TableOwned(s, owner, d, i))
    && (forall d, i: nat, j: nat :: d in dirs && i < USERDIRS && Entry(s, d, i, j).Present? ==>
          UserOwned(s, owner, d, i, j))
    && (forall f :: f in owner ==> f !in loose)
  }

  ghost predicate UsedAs(s: Mem, u: Use, f: nat, dirs: set<nat>) {
    match u
    case Dir => f in dirs
    case Table(d, i) => d in dirs && HasTable(s, d, i) && TableOf(s, d, i) == f && IsPage(s, f)
    case User(d, i, j) =>
      d in dirs && i < USERDIRS && j < NENTRIES && Entry(s, d, i, j).Present? && Entry(s, d, i, j).frame == f
  }

  ghost predicate TableOwned(s: Mem, owner: map<nat, Use>, d: nat, i: nat)
    requires HasTable(s, d, i)
  {
    TableOf(s, d, i) in owner && owner[TableOf(s, d, i)] == Table(d, i)
  }

  ghost predicate UserOwned(s: Mem, owner: map<nat, Use>, d: nat, i: nat, j: nat)
    requires Entry(s, d, i, j).Present?
  {
    Entry(s, d, i, j).frame in owner && owner[Entry(s, d, i, j).frame] == User(d, i, j)
  }

  /** Every page of the machine is on the free list, in use, or loose, and counted once. */
  ghost predicate Counted(free: seq<nat>, owner: map<nat, Use>, loose: set<nat>, all: set<nat>) {
    && (forall i, j :: 0 <= i < j < |free| ==> free[i] != free[j])
    && (forall f :: f in free ==> f !in owner && f !in loose)
    && (forall f :: f in all <==> f in free || f in owner || f in loose)
  }

  ghost predicate Good(s: Mem, owner: map<nat, Use>, loose: set<nat>, dirs: set<nat>, all: set<nat>) {
    Owned(s, owner, loose, dirs) && Counted(s.free, owner, loose, all)
  }

  function ZeroPage(): (p: seq<Pte>)
    ensures |p| == NENTRIES && forall j :: 0 <= j < NENTRIES ==> p[j] == Absent
  {
    seq(NENTRIES, _ => Absent)
  }

  // ---- The steps ----

  function SetEntry(s: Mem, f: nat, i: nat, e: Pte): Mem
    requires f in s.pages && i < |s.pages[f]|
  {
    s.(pages := s.pages[f := s.pages[f][i := e]])
  }

  /** kalloc takes the head of the free list. */
  lemma KallocGood(s: Mem, owner: map<nat, Use>, loose: set<nat>, dirs: set<nat>, all: set<nat>)
    requires Good(s, owner, loose, dirs, all) && s.free != []
    ensures Good(s.(free := s.free[1..]), owner, loose + {s.free[0]}, dirs, all)
    ensures s.free[0] !in owner && s.free[0] !in loose && s.free[0] in all
  {
    var s' := s.(free := s.free[1..]);
    SamePages(s, s', owner, loose, dirs);
    assert s.free == [s.free[0]] + s.free[1..];
    assert forall i :: 0 <= i < |s'.free| ==> s'.free[i] == s.free[i + 1];
  }

  lemma KfreeGood(s: Mem, owner: map<nat, Use>, loose: set<nat>, dirs: set<nat>, all: set<nat>, f: nat)
    requires Good(s, owner, loose, dirs, all) && f in loose
    ensures Good(s.(free := [f] + s.free), owner, loose - {f}, dirs, all)
  {
    var s' := s.(free := [f] + s.free);
    SamePages(s, s', owner, loose, dirs);
  }

  /** Ownership does not look at the free list. */
  lemma SamePages(s: Mem, s': Mem, owner: map<nat, Use>, loose: set<nat>, dirs: set<nat>)
    requires Owned(s, owner, loose, dirs) && s'.pages == s.pages
    ensures forall d, i: nat, j: nat :: Entry(s', d, i, j) == Entry(s, d, i, j)
    ensures forall l :: (forall f :: f in owner ==> f !in l) ==> Owned(s', owner, l, dirs)
  {
    assert forall d, i: nat, j: nat :: Entry(s', d, i, j) == Entry(s, d, i, j);
    forall f | f in owner ensures UsedAs(s', owner[f], f, dirs) { assert UsedAs(s, owner[f], f, dirs); }
    forall d, i: nat | d in dirs && HasTable(s', d, i)
      ensures TableOwned(s', owner, d, i)
    {
      assert TableOwned(s, owner, d, i);
    }
    forall d, i: nat, j: nat | d in dirs && i < USERDIRS && Entry(s', d, i, j).Present?
      ensures UserOwned(s', owner, d, i, j)
    {
      assert UserOwned(s, owner, d, i, j);
    }
  }

  /** A page that holds entries is a directory or somebody's table, and nothing else. */
  lemma TableIsApart(s: Mem, owner: map<nat, Use>, loose: set<nat>, dirs: set<nat>, d: nat, i: nat)
    requires Owned(s, owner, loose, dirs) && d in dirs && HasTable(s, d, i)
    ensures var t := TableOf(s, d, i);
            && t in owner && owner[t] == Table(d, i) && t !in dirs && t !in loose && IsPage(s, t)
            && (forall e, k: nat :: e in dirs && HasTable(s, e, k) && TableOf(s, e, k) == t ==> e == d && k == i)
  {
    assert TableOwned(s, owner, d, i);
    var t := TableOf(s, d, i);
    assert UsedAs(s, owner[t], t, dirs);
    forall e, k: nat | e in dirs && HasTable(s, e, k) && TableOf(s, e, k) == t ensures e == d && k == i {
      assert TableOwned(s, owner, e, k);
    }
  }

  function WithTable(s: Mem, d: nat, i: nat, t: nat, perm: nat): Mem
    requires d in s.pages && i < |s.pages[d]| && d != t
  {
    var zeroed := s.(pages := s.pages[t := ZeroPage()]);
    SetEntry(zeroed, d, i, Present(t, perm))
  }

  /** walkpgdir adds a zeroed table: no translation changes. */
  lemma AddTableEntries(s: Mem, owner: map<nat, Use>, loose: set<nat>, dirs: set<nat>, d: nat, i: nat, t: nat,
                        perm: nat)
    requires Owned(s, owner, loose, dirs) && d in dirs && i < NENTRIES && s.pages[d][i] == Absent && t in loose
    ensures d in s.pages && i < |s.pages[d]| && d != t
    ensures var s' := WithTable(s, d, i, t, perm);
            && s'.free == s.free && HasTable(s', d, i) && TableOf(s', d, i) == t && IsPage(s', t)
            && (forall f :: f in owner && IsPage(s, f) ==> IsPage(s', f))
            && (forall e, k: nat, j: nat :: e in dirs ==> Entry(s', e, k, j) == Entry(s, e, k, j))
            && (forall e, k: nat :: e in dirs ==>
              IsPage(s', e) && (HasTable(s', e, k) <==> HasTable(s, e, k) || (e == d && k == i)))
            && (forall e, k: nat :: e in dirs && HasTable(s, e, k) ==> TableOf(s', e, k) == TableOf(s, e, k))
  {
    var s' := WithTable(s, d, i, t, perm);
    assert d in owner && d != t;
    forall e, k: nat | e in dirs
      ensures IsPage(s', e) && (HasTable(s', e, k) <==> HasTable(s, e, k) || (e == d && k == i))
      ensures HasTable(s, e, k) ==> TableOf(s', e, k) == TableOf(s, e, k)
    {
      assert e in owner && e != t;
    }
    forall e, k: nat, j: nat | e in dirs ensures Entry(s', e, k, j) == Entry(s, e, k, j) {
      if HasTable(s, e, k) { TableIsApart(s, owner, loose, dirs, e, k); }
    }
  }

  lemma AddTableGood(s: Mem, owner: map<nat, Use>, loose: set<nat>, dirs: set<nat>, all: set<nat>, d: nat, i: nat,
                     t: nat, perm: nat)
    requires Good(s, owner, loose, dirs, all) && d in dirs && i < NENTRIES && s.pages[d][i] == Absent && t in loose
    ensures d in s.pages && i < |s.pages[d]| && d != t
    ensures Good(WithTable(s, d, i, t, perm), owner[t := Table(d, i)], loose - {t}, dirs, all)
  {
    hide WithTable, Entry, HasTable;
    AddTableEntries(s, owner, loose, dirs, d, i, t, perm);
    var s', owner' := WithTable(s, d, i, t, perm), owner[t := Table(d, i)];
    forall f | f in owner' ensures UsedAs(s', owner'[f], f, dirs) {
      if f != t { AddTableUse(s, owner, loose, dirs, d, i, t, perm, f); }
    }
    forall e, k: nat | e in dirs && HasTable(s', e, k) ensures TableOwned(s', owner', e, k) {
      if !(e == d && k == i) { TableIsApart(s, owner, loose, dirs, e, k); }
    }
    forall e, k: nat, j: nat | e in dirs && k < USERDIRS && Entry(s', e, k, j).Present?
      ensures UserOwned(s', owner', e, k, j)
    {
      assert UserOwned(s, owner, e, k, j);
    }
  }

  lemma AddTableUse(s: Mem, owner: map<nat, Use>, loose: set<nat>, dirs: set<nat>, d: nat, i: nat, t: nat, perm: nat,
                    f: nat)
    requires Owned(s, owner, loose, dirs) && d in dirs && i < NENTRIES && s.pages[d][i] == Absent && t in loose
    requires f in owner
    ensures d in s.pages && i < |s.pages[d]| && d != t
    ensures UsedAs(WithTable(s, d, i, t, perm), owner[f], f, dirs)
  {
    hide Entry;
    AddTableEntries(s, owner, loose, dirs, d, i, t, perm);
    assert UsedAs(s, owner[f], f, dirs);
    if owner[f].Table? { TableIsApart(s, owner, loose, dirs, owner[f].d, owner[f].i); }
  }

  /** Writing one entry of one table changes one translation. */
  lemma PutEntries(s: Mem, owner: map<nat, Use>, loose: set<nat>, dirs: set<nat>, d: nat, i: nat, j: nat, e: Pte)
    requires Owned(s, owner, loose, dirs) && d in dirs && HasTable(s, d, i) && j < NENTRIES
    ensures IsPage(s, TableOf(s, d, i))
    ensures var s' := SetEntry(s, TableOf(s, d, i), j, e);
            && s'.free == s.free && (forall f :: IsPage(s, f) ==> IsPage(s', f))
            && (forall c, k: nat :: c in dirs ==> IsPage(s', c) && (HasTable(s', c, k) <==> HasTable(s, c, k)))
            && (forall c, k: nat :: c in dirs && HasTable(s, c, k) ==>
              TableOf(s', c, k) == TableOf(s, c, k) && IsPage(s', TableOf(s, c, k)))
            && (forall c, k: nat, l: nat :: c in dirs ==>
              Entry(s', c, k, l) == if (c, k, l) == (d, i, j) then e else Entry(s, c, k, l))
  {
    TableIsApart(s, owner, loose, dirs, d, i);
    var s' := SetEntry(s, TableOf(s, d, i), j, e);
    forall c, k: nat | c in dirs
      ensures IsPage(s', c) && (HasTable(s', c, k) <==> HasTable(s, c, k))
      ensures HasTable(s, c, k) ==> TableOf(s', c, k) == TableOf(s, c, k)
    {
      assert c != TableOf(s, d, i);
    }
    forall c, k: nat | c in dirs && HasTable(s, c, k)
      ensures IsPage(s', TableOf(s, c, k)) && (TableOf(s, c, k) == TableOf(s, d, i) ==> c == d && k == i)
    {
      TableIsApart(s, owner, loose, dirs, c, k);
    }
  }

  /** mappages on a user page: the loose page becomes the page of that address. */
  lemma MapGood(s: Mem, owner: map<nat, Use>, loose: set<nat>, dirs: set<nat>, all: set<nat>, d: nat, i: nat, j: nat,
                f: nat, perm: nat)
    requires Good(s, owner, loose, dirs, all) && d in dirs && HasTable(s, d, i) && i < USERDIRS && j < NENTRIES
    requires Entry(s, d, i, j) == Absent && f in loose
    ensures IsPage(s, TableOf(s, d, i))
    ensures Good(SetEntry(s, TableOf(s, d, i), j, Present(f, perm)), owner[f := User(d, i, j)], loose - {f}, dirs, all)
  {
    hide SetEntry, Entry, HasTable;
    PutEntries(s, owner, loose, dirs, d, i, j, Present(f, perm));
    var s', owner' := SetEntry(s, TableOf(s, d, i), j, Present(f, perm)), owner[f := User(d, i, j)];
    forall g | g in owner' ensures UsedAs(s', owner'[g], g, dirs) {
      if g != f { assert UsedAs(s, owner[g], g, dirs); }
    }
    forall e, k: nat | e in dirs && HasTable(s', e, k)
      ensures TableOwned(s', owner', e, k)
    {
      assert TableOwned(s, owner, e, k);
    }
    forall e, k: nat, l: nat | e in dirs && k < USERDIRS && Entry(s', e, k, l).Present?
      ensures UserOwned(s', owner', e, k, l)
    {
      if (e, k, l) != (d, i, j) { assert UserOwned(s, owner, e, k, l); }
    }
  }

  /** mappages in the kernel half: the frame is nobody's page. */
  lemma KernelMapGood(s: Mem, owner: map<nat, Use>, loose: set<nat>, dirs: set<nat>, all: set<nat>,
                      d: nat, i: nat, j: nat, e: Pte)
    requires Good(s, owner, loose, dirs, all) && d in dirs && HasTable(s, d, i) && USERDIRS <= i && j < NENTRIES
    ensures IsPage(s, TableOf(s, d, i)) && Good(SetEntry(s, TableOf(s, d, i), j, e), owner, loose, dirs, all)
  {
    hide SetEntry, Entry, HasTable;
    PutEntries(s, owner, loose, dirs, d, i, j, e);
    var s' := SetEntry(s, TableOf(s, d, i), j, e);
    forall g | g in owner ensures UsedAs(s', owner[g], g, dirs) { assert UsedAs(s, owner[g], g, dirs); }
    forall c, k: nat | c in dirs && HasTable(s', c, k) ensures TableOwned(s', owner, c, k) {
      assert TableOwned(s, owner, c, k);
    }
    forall c, k: nat, l: nat | c in dirs && k < USERDIRS && Entry(s', c, k, l).Present?
      ensures UserOwned(s', owner, c, k, l)
    {
      assert UserOwned(s, owner, c, k, l);
    }
  }

  /** deallocuvm on one page: the page of that address becomes loose. */
  lemma UnmapGood(s: Mem, owner: map<nat, Use>, loose: set<nat>, dirs: set<nat>, all: set<nat>, d: nat, i: nat, j: nat)
    requires Good(s, owner, loose, dirs, all) && d in dirs && HasTable(s, d, i) && i < USERDIRS && j < NENTRIES
    requires Entry(s, d, i, j).Present?
    ensures IsPage(s, TableOf(s, d, i))
    ensures var f := Entry(s, d, i, j).frame;
            && f in all && f in owner && owner[f] == User(d, i, j)
            && Good(SetEntry(s, TableOf(s, d, i), j, Absent), owner - {f}, loose + {f}, dirs, all)
  {
    hide SetEntry, Entry, HasTable;
    PutEntries(s, owner, loose, dirs, d, i, j, Absent);
    assert UserOwned(s, owner, d, i, j);
    var f := Entry(s, d, i, j).frame;
    var s', owner' := SetEntry(s, TableOf(s, d, i), j, Absent), owner - {f};
    forall g | g in owner' ensures UsedAs(s', owner'[g], g, dirs) { assert UsedAs(s, owner[g], g, dirs); }
    forall e, k: nat | e in dirs && HasTable(s', e, k)
      ensures TableOwned(s', owner', e, k)
    {
      assert TableOwned(s, owner, e, k);
    }
    forall e, k: nat, l: nat | e in dirs && k < USERDIRS && Entry(s', e, k, l).Present?
      ensures UserOwned(s', owner', e, k, l)
    {
      assert UserOwned(s, owner, e, k, l);
    }
  }

  function WithDir(s: Mem, d: nat): Mem {
    s.(pages := s.pages[d := ZeroPage()])
  }

  /** A zeroed loose page becomes a directory that maps nothing; other directories keep their entries. */
  lemma NewDirEntries(s: Mem, owner: map<nat, Use>, loose: set<nat>, dirs: set<nat>, d: nat)
    requires Owned(s, owner, loose, dirs) && d in loose
    ensures d !in dirs && d !in owner && IsPage(WithDir(s, d), d)
    ensures forall i: nat :: !HasTable(WithDir(s, d), d, i)
    ensures forall i: nat, j: nat :: Entry(WithDir(s, d), d, i, j) == Absent
    ensures forall e, i: nat, j: nat :: e in dirs ==> Entry(WithDir(s, d), e, i, j) == Entry(s, e, i, j)
    ensures forall e :: e in dirs ==> IsPage(WithDir(s, d), e)
    ensures forall e, i: nat :: e in dirs ==> (HasTable(WithDir(s, d), e, i) <==> HasTable(s, e, i))
    ensures forall e, i: nat :: e in dirs && HasTable(s, e, i) ==>
              TableOf(WithDir(s, d), e, i) == TableOf(s, e, i) && TableOf(s, e, i) != d
  {
    var s' := WithDir(s, d);
    assert d !in owner && s'.pages[d] == ZeroPage();
    forall i: nat ensures !HasTable(s', d, i) {}
    forall e | e in dirs ensures IsPage(s', e) { assert e in owner && e != d; }
    forall e, i: nat | e in dirs ensures HasTable(s', e, i) <==> HasTable(s, e, i) {
      assert e in owner && e != d;
    }
    forall e, i: nat | e in dirs && HasTable(s, e, i) ensures TableOf(s', e, i) == TableOf(s, e, i) {
      assert e in owner && e != d;
    }
    forall e, i: nat | e in dirs && HasTable(s, e, i) ensures TableOf(s, e, i) != d && IsPage(s, TableOf(s, e, i)) {
      TableIsApart(s, owner, loose, dirs, e, i);
    }
  }

  lemma NewDirGood(s: Mem, owner: map<nat, Use>, loose: set<nat>, dirs: set<nat>, all: set<nat>, d: nat)
    requires Good(s, owner, loose, dirs, all) && d in loose
    ensures Good(WithDir(s, d), owner[d := Dir], loose - {d}, dirs + {d}, all)
  {
    NewDirEntries(s, owner, loose, dirs, d);
    hide Entry, HasTable, WithDir;
    var s', owner', dirs' := WithDir(s, d), owner[d := Dir], dirs + {d};
    forall f | f in owner' ensures UsedAs(s', owner'[f], f, dirs') {
      if f != d {
        assert UsedAs(s, owner[f], f, dirs);
        assert IsPage(s, f) ==> IsPage(s', f);
      }
    }
    forall e, k: nat | e in dirs' && HasTable(s', e, k)
      ensures TableOwned(s', owner', e, k)
    {
      assert TableOwned(s, owner, e, k);
    }
    forall e, k: nat, l: nat | e in dirs' && k < USERDIRS && Entry(s', e, k, l).Present?
      ensures UserOwned(s', owner', e, k, l)
    {
      assert UserOwned(s, owner, e, k, l);
    }
  }

  /** The pages that make up directory d once nothing is mapped in its user half. */
  ghost function Skeleton(owner: map<nat, Use>, d: nat): set<nat> {
    set f | f in owner && (f == d || (owner[f].Table? && owner[f].d == d))
  }

  /** freevm gives up the directory: its pages are no longer in use, only loose. */
  lemma RetireGood(s: Mem, owner: map<nat, Use>, loose: set<nat>, dirs: set<nat>, all: set<nat>, d: nat)
    requires Good(s, owner, loose, dirs, all) && d in dirs
    requires forall i: nat, j: nat :: i < USERDIRS ==> Entry(s, d, i, j) == Absent
    ensures Good(s, owner - Skeleton(owner, d), loose + Skeleton(owner, d), dirs - {d}, all)
    ensures forall i: nat :: HasTable(s, d, i) ==> TableOf(s, d, i) in Skeleton(owner, d) && TableOf(s, d, i) != d
    ensures forall i: nat, k: nat :: HasTable(s, d, i) && HasTable(s, d, k) && i != k ==>
              TableOf(s, d, i) != TableOf(s, d, k)
    ensures forall f :: f in Skeleton(owner, d) ==>
              f == d || exists i: nat :: HasTable(s, d, i) && TableOf(s, d, i) == f
    ensures d in Skeleton(owner, d) && Skeleton(owner, d) !! loose
  {
    hide Entry, HasTable;
    var owner', dirs' := owner - Skeleton(owner, d), dirs - {d};
    forall i: nat | HasTable(s, d, i) ensures TableOf(s, d, i) in Skeleton(owner, d) && TableOf(s, d, i) != d {
      TableIsApart(s, owner, loose, dirs, d, i);
    }
    forall i: nat, k: nat | HasTable(s, d, i) && HasTable(s, d, k) && i != k
      ensures TableOf(s, d, i) != TableOf(s, d, k)
    {
      TableIsApart(s, owner, loose, dirs, d, i);
    }
    forall f | f in owner' ensures UsedAs(s, owner'[f], f, dirs') { assert UsedAs(s, owner[f], f, dirs); }
    forall e, k: nat | e in dirs' && HasTable(s, e, k)
      ensures TableOwned(s, owner', e, k)
    {
      assert TableOwned(s, owner, e, k);
    }
    forall e, k: nat, l: nat | e in dirs' && k < USERDIRS && Entry(s, e, k, l).Present?
      ensures UserOwned(s, owner', e, k, l)
    {
      assert UserOwned(s, owner, e, k, l);
    }
    forall f | f in Skeleton(owner, d) && f != d ensures exists i: nat :: HasTable(s, d, i) && TableOf(s, d, i) == f {
      assert UsedAs(s, owner[f], f, dirs);
    }
  }
}
