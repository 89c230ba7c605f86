/** The inode cache, directories and the link-count calls in place (fs.c and sysfile.c). */
module LinkCalls {
  import opened Common
  import opened Links
  import opened LinkFacts
  import opened LinkRuns
  import opened LinkAnswers

  const NINODE: nat := 50

  /** One entry of icache; ref 0 means free. */
  datatype Slot = Slot(inum: nat, ref: nat)

  ghost function RefOf(slots: seq<Slot>, i: nat): nat {
    if slots == [] then 0
    else RefOf(slots[..|slots| - 1], i) + if slots[|slots| - 1].inum == i then slots[|slots| - 1].ref else 0
  }

  ghost function Refs(slots: seq<Slot>, n: nat): (r: seq<nat>)
    ensures |r| == n
  {
    seq(n, i requires 0 <= i => RefOf(slots, i))
  }

  /** No two cache entries in use are for the same inode. */
  ghost predicate Unique(slots: seq<Slot>) {
    forall j, k :: 0 <= j < k < |slots| && slots[j].ref > 0 && slots[k].ref > 0 ==> slots[j].inum != slots[k].inum
  }

  lemma {:induction false} RefSet(slots: seq<Slot>, k: nat, s: Slot, i: nat)
    requires k < |slots|
    ensures RefOf(slots[k := s], i) + (if slots[k].inum == i then slots[k].ref else 0)
            == RefOf(slots, i) + if s.inum == i then s.ref else 0
  {
    var m := |slots| - 1;
    if k < m {
      assert slots[k := s][..m] == slots[..m][k := s];
      RefSet(slots[..m], k, s, i);
    } else {
      assert slots[k := s][..m] == slots[..m];
    }
  }

  lemma {:induction false} RefZero(slots: seq<Slot>, i: nat)
    requires forall k :: 0 <= k < |slots| ==> slots[k].inum == i ==> slots[k].ref == 0
    ensures RefOf(slots, i) == 0
  {
    if slots != [] { RefZero(slots[..|slots| - 1], i); }
  }

  /** The entry in use for an inode holds its whole count. */
  lemma RefHere(slots: seq<Slot>, k: nat)
    requires k < |slots| && slots[k].ref > 0 && Unique(slots)
    ensures RefOf(slots, slots[k].inum) == slots[k].ref
  {
    var i, s := slots[k].inum, Slot(slots[k].inum, 0);
    RefSet(slots, k, s, i);
    RefZero(slots[k := s], i);
  }

  lemma RefsSet(slots: seq<Slot>, k: nat, s: Slot, n: nat)
    requires k < |slots| && s.inum < n && (slots[k].ref > 0 ==> slots[k].inum == s.inum)
    ensures Refs(slots, n)[s.inum] + s.ref >= slots[k].ref
    ensures Refs(slots[k := s], n) == Refs(slots, n)[s.inum := Refs(slots, n)[s.inum] + s.ref - slots[k].ref]
  {
    forall i | 0 <= i < n
      ensures RefOf(slots[k := s], i) == if i == s.inum then RefOf(slots, i) + s.ref - slots[k].ref else RefOf(slots, i)
    {
      RefSet(slots, k, s, i);
    }
    RefSet(slots, k, s, s.inum);
  }

  /** iget's change to one entry. */
  lemma TakeSlot(slots: seq<Slot>, k: nat, i: nat, n: nat)
    requires k < |slots| && i < n && Unique(slots) && (slots[k].ref > 0 ==> slots[k].inum == i)
    requires slots[k].ref == 0 ==> forall j :: 0 <= j < |slots| && slots[j].ref > 0 ==> slots[j].inum != i
    ensures var slots' := slots[k := Slot(i, slots[k].ref + 1)];
            Unique(slots') && Refs(slots', n) == Refs(slots, n)[i := Refs(slots, n)[i] + 1]
  {
    hide Refs;
    RefsSet(slots, k, Slot(i, slots[k].ref + 1), n);
  }

  // ---- The calls bring and return a reference of their own for what they look up ----

  lemma GetPut(s: State, t: nat)
    requires t < |s.nodes| == |s.refs|
    ensures Put(Get(s, t), t) == Release(s, t)
  {
    assert s.refs[t := s.refs[t] + 1][t := s.refs[t]] == s.refs;
  }

  lemma GetPutGood(s: State, t: nat)
    requires Good(s) && t < |s.nodes|
    ensures Put(Get(s, t), t) == s
  {
    GetPut(s, t);
    assert Alive(s, t);
    if s.nodes[t].kind == Free { FreeIsNobody(s, t); }
  }

  lemma GetPutBoth(s: State, d: nat, t: nat)
    requires Good(s) && HasDir(s, d) && t < |s.nodes|
    ensures Get(s, t).refs[d] > 0 && Put(Get(s, t), d).refs[t] > 0 && Put(Put(Get(s, t), d), t) == Put(s, d)
  {
    hide Tree, Counted, Put;
    GetPutGood(s, t);
    if t != d {
      assert Alive(s, t);
      if s.nodes[t].kind == Free { FreeIsNobody(s, t); }
      GetPutSwap(s, d, t);
    }
  }

  lemma FreeIsNobody(s: State, t: nat)
    requires Good(s) && t < |s.nodes| && s.nodes[t].kind == Free
    ensures s.nodes[t] == NOBODY
  {
    assert Shape(s.nodes, t);
  }

  lemma GetPutSwap(s: State, d: nat, t: nat)
    requires d < |s.nodes| == |s.refs| && t < |s.nodes| && t != d && s.refs[d] > 0
    requires s.nodes[t] == NOBODY || (s.nodes[t].nlink == 0 ==> s.refs[t] > 0)
    ensures Get(s, t).refs[d] > 0 && Put(Get(s, t), d).refs[t] > 0 && Put(Put(Get(s, t), d), t) == Put(s, d)
  {
    var g, p := Get(s, t), s.(refs := s.refs[d := s.refs[d] - 1]);
    assert g.refs[d := g.refs[d] - 1] == p.refs[t := p.refs[t] + 1];
    assert Put(Put(g, d), t).refs == p.refs;
  }

  /** A failed unlink or create, with the reference that looked the directory up, undoes itself. */
  lemma FailedUndone(s: State, d: nat, name: string, kind: Kind)
    requires Good(s) && d < |s.nodes| && s.nodes[d].kind == Dir
    ensures |s.refs| == |s.nodes| && HasDir(Get(s, d), d)
    ensures UnlinkOutcome(Get(s, d), d, name) == Failed ==> LinkRuns.Unlink(Get(s, d), d, name) == s
    ensures CreateOutcome(Get(s, d), d, name, kind) == Failed ==> LinkRuns.Create(Get(s, d), d, name, kind) == s
  {
    hide Good, Lookup, FreeSlot, Put, UnlinkAt, CreateAt;
    GetAbovePending(s, d);
    GetPutGood(s, d);
  }

  /** A failed link undoes itself too: a directory at once, anything else after its new parent is
      looked up, whether it is found or not. */
  lemma FailedLinkUndone(s: State, i: nat, dp: Option<nat>, name: string, sameDev: bool)
    requires Good(s) && i < |s.nodes| && s.nodes[i].kind != Free
    requires dp.Some? ==> dp.value < |s.nodes| && s.nodes[dp.value].kind == Dir
    ensures |s.refs| == |s.nodes|
    ensures s.nodes[i].kind == Dir ==> Links.LinkBegin(Get(s, i), i) == s
    ensures s.nodes[i].kind != Dir ==>
              var b := Links.LinkBegin(Get(s, i), i);
              && |b.refs| == |b.nodes| == |s.nodes|
              && var m := if dp == None then b else Get(b, dp.value);
              && HasFile(m, i) && (dp.Some? ==> HasDir(m, dp.value))
              && (LinkOutcome(m, dp, name, sameDev) == Failed ==> LinkEnd(m, i, dp, name, sameDev) == s)
  {
    hide Good, Lookup, FreeSlot, Put, LinkFail;
    GetAbovePending(s, i);
    GetPutGood(s, i);
    if s.nodes[i].kind != Dir {
      GetGood(s, i);
      LinkFailUndoes(Get(s, i), i);
      var b := Links.LinkBegin(Get(s, i), i);
      if dp.Some? {
        LinkBeginGood(Get(s, i), i);
        GetPutGood(b, dp.value);
      }
    }
  }

  lemma GetAbovePending(s: State, i: nat)
    requires Good(s) && i < |s.nodes|
    ensures |s.refs| == |s.nodes| && Get(s, i).refs[i] > s.pending[i]
  {
  }

  /** sys_unlink's own order of steps. */
  ghost function UnlinkSteps(s: State, d: nat, k: nat, t: nat): State
    requires |s.nodes| == |s.refs| && d < |s.nodes| && k < |s.nodes[d].entries| && t < |s.nodes| && t != d
    requires s.refs[d] > 0 && s.refs[t] > 0
  {
    var c := ClearAt(s, d, k);
    var l := if s.nodes[t].kind == Dir then AddLinks(c, d, -1) else c;
    Put(AddLinks(Put(l, d), t, -1), t)
  }

  lemma UnlinkOrder(s: State, d: nat, name: string)
    requires Good(s) && HasDir(s, d) && UnlinkOutcome(s, d, name).Done?
    ensures var k, t := Lookup(s.nodes[d].entries, name).value, UnlinkOutcome(s, d, name).inum;
            t != d && UnlinkSteps(Get(s, t), d, k, t) == Unlink(s, d, name)
  {
    hide Good, Lookup;
    FoundName(s, d, name);
    var k, t := Lookup(s.nodes[d].entries, name).value, UnlinkOutcome(s, d, name).inum;
    assert t != d && s.nodes[d].nlink >= if s.nodes[t].kind == Dir then 2 else 1 by {
      assert Core(s) by { CoreOf(s); }
      if s.nodes[t].kind == Dir { EmptyDirHasOneLink(s, d, k); }
    }
    UnlinkSwap(s, d, k, t);
  }

  lemma CoreOf(s: State)
    requires Good(s)
    ensures Core(s)
  {
  }

  lemma UnlinkSwap(s: State, d: nat, k: nat, t: nat)
    requires |s.nodes| == |s.refs| && d < |s.nodes| && k < |s.nodes[d].entries|
    requires t == s.nodes[d].entries[k].inum < |s.nodes| && t != d && s.refs[d] > 0
    requires s.nodes[d].nlink >= if s.nodes[t].kind == Dir then 2 else 1
    ensures UnlinkSteps(Get(s, t), d, k, t) == Release(Put(UnlinkAt(s, d, k), d), t)
  {
    var u := UnlinkAt(s, d, k);
    assert Put(u, d).nodes == u.nodes;
    var r1 := s.refs[t := s.refs[t] + 1];
    assert r1[d := r1[d] - 1][t := s.refs[t]] == s.refs[d := s.refs[d] - 1];
  }

  lemma PendingKind(s: State)
    requires Good(s)
    ensures forall i: nat :: s.pending[i] > 0 ==> HasFile(s, i)
  {
    hide Tree, Counted;
  }

  lemma EntryInRange(s: State, d: nat, k: nat)
    requires Good(s) && HasDir(s, d) && k < |s.nodes[d].entries|
    ensures s.nodes[d].entries[k].inum < |s.nodes|
  {
    hide Counted;
    assert Shape(s.nodes, d);
  }

  lemma DotsEntered(n: nat, d: nat)
    requires n != 0
    ensures FreeSlot([]) == 0 && FreeSlot([Dirent(n, ".")]) == 1 && Cut(".") == "." && Cut("..") == ".."
  {
  }

  lemma Sizes(s: State, d: nat)
    requires Good(s) && HasDir(s, d)
    ensures |s.nodes| > 1 && d != 0
  {
    assert Shape(s.nodes, d);
  }

  /** The lookup reference keeps what was found as it is while the directory is put back. */
  lemma FoundKind(s: State, d: nat, t: nat)
    requires Good(s) && HasDir(s, d) && t < |s.nodes|
    ensures Get(s, t).refs[d] > 0 && |Put(Get(s, t), d).nodes| == |s.nodes|
    ensures Put(Get(s, t), d).nodes[t].kind == s.nodes[t].kind
  {
    if t == d { GetPutGood(s, t); } else { PutOther(Get(s, t), d, t); }
  }

  lemma CreatedSame(s: State, s1: State, d: nat, name: string, kind: Kind, n: nat, nodes: seq<Node>)
    requires d < |s.nodes| == |s.refs| && n < |s.nodes| && n != d && s1 == SetNode(s, n, Node(kind, 0, []))
    requires var parent := s.nodes[d].(nlink := s.nodes[d].nlink + if kind == Dir then 1 else 0);
             var made := s1.nodes[d := parent][n := NewNode(kind, n, d)];
             nodes == EnterIn(State(made, s1.refs, s1.pending), d, name, n).nodes
    ensures State(nodes, Get(s1, n).refs, s.pending) == CreateAt(s, d, name, kind, n)
  {
    hide FreeSlot, Enter;
    var parent := s.nodes[d].(nlink := s.nodes[d].nlink + if kind == Dir then 1 else 0);
    assert s1.nodes[d := parent][n := NewNode(kind, n, d)] == s.nodes[d := parent][n := NewNode(kind, n, d)];
  }

  /** Every cache entry is in use for another inode: the panic of iget. */
  ghost predicate NoSlotFor(slots: seq<Slot>, i: nat) {
    forall k :: 0 <= k < |slots| ==> slots[k].ref > 0 && slots[k].inum != i
  }

  /** So for the inode that a name in the directory is for. */
  ghost predicate NoSlotToFind(slots: seq<Slot>, es: seq<Dirent>, name: string) {
    Names(es, name) && NoSlotFor(slots, es[Lookup(es, name).value].inum)
  }

  /** So for the inode that create needs: the one it finds, or the one it makes. */
  ghost predicate NoSlotToCreate(slots: seq<Slot>, s: State, d: nat, name: string)
    requires HasDir(s, d)
  {
    var es := s.nodes[d].entries;
    if Names(es, name) then NoSlotFor(slots, es[Lookup(es, name).value].inum)
    else |s.nodes| >= 1 && Blank(s.nodes).Some? && NoSlotFor(slots, Blank(s.nodes).value)
  }

  class Inodes {
    var slots: seq<Slot>       // icache.inode
    var nodes: seq<Node>       // the inodes on disk
    ghost var pending: multiset<nat>

    ghost function Abs(): State reads this { State(nodes, Refs(slots, |nodes|), pending) }

    ghost predicate Cached() reads this {
      |slots| == NINODE && Unique(slots) && forall k :: 0 <= k < NINODE && slots[k].ref > 0 ==> slots[k].inum < |nodes|
    }

    ghost predicate Valid() reads this {
      Cached() && Good(Abs())
    }

    ghost predicate Full() reads this {
      forall k :: 0 <= k < |slots| ==> slots[k].ref > 0
    }

    /** k is a reference to a directory, such as nameiparent returns. */
    ghost predicate DirRef(k: nat) reads this {
      k < |slots| && slots[k].ref > 0 && slots[k].inum < |nodes| && nodes[slots[k].inum].kind == Dir
    }

    constructor (n: nat)
      requires n > 1
      ensures Valid() && Abs() == Fresh(n)
    {
      slots := seq(NINODE, _ => Slot(0, 0));
      nodes := seq(n, i =>
        if i == ROOTINO then Node(Dir, 1, [Dirent(ROOTINO, "."), Dirent(ROOTINO, "..")]) else NOBODY);
      pending := multiset{};
      new;
      forall i | 0 <= i < n ensures RefOf(slots, i) == 0 { RefZero(slots, i); }
      assert Refs(slots, n) == seq(n, i => 0);
      FreshGood(n);
    }

    /** iget; None is its panic, with every entry in use and none for this inode. */
    method Iget(i: nat) returns (r: Option<nat>)
      requires Cached() && i < |nodes|
      modifies this`slots
      ensures Cached()
      ensures r == None <==> NoSlotFor(old(slots), i)
      ensures r == None ==> slots == old(slots) && Full()
      ensures r.Some? ==>
                r.value < NINODE && slots[r.value].inum == i && slots[r.value].ref > 0 && Abs() == Get(old(Abs()), i)
      ensures forall k :: 0 <= k < NINODE && old(slots)[k].ref > 0 ==>
                slots[k] == old(slots)[k].(ref := old(slots)[k].ref + if r == Some(k) then 1 else 0)
    {
      hide Unique, Refs;
      var empty: Option<nat> := None;
      var k := 0;
      while k < NINODE
        invariant k <= NINODE && slots == old(slots)
        invariant forall j :: 0 <= j < k && slots[j].ref > 0 ==> slots[j].inum != i
        invariant empty == None ==> forall j :: 0 <= j < k ==> slots[j].ref > 0
        invariant empty.Some? ==> empty.value < k && slots[empty.value].ref == 0
      {
        if slots[k].ref > 0 && slots[k].inum == i {
          TakeSlot(slots, k, i, |nodes|);
          slots := slots[k := Slot(i, slots[k].ref + 1)];
          return Some(k);
        }
        if empty == None && slots[k].ref == 0 {
          empty := Some(k);
        }
        k := k + 1;
      }
      if empty == None {
        return None;
      }
      TakeSlot(slots, empty.value, i, |nodes|);
      slots := slots[empty.value := Slot(i, 1)];
      return empty;
    }

    /** iput: the last reference to an inode without links frees it. */
    method Iput(k: nat)
      requires Cached() && k < NINODE && slots[k].ref > 0
      modifies this`slots, this`nodes
      ensures Cached() && |nodes| == |old(nodes)|
      ensures old(Abs()).refs[old(slots)[k].inum] > 0 && Abs() == Put(old(Abs()), old(slots)[k].inum)
      ensures forall j :: 0 <= j < NINODE ==>
                slots[j].inum == old(slots)[j].inum && (j != k ==> slots[j].ref == old(slots)[j].ref)
      ensures slots[k].ref == old(slots)[k].ref - 1
    {
      var i := slots[k].inum;
      RefHere(slots, k);
      RefsSet(slots, k, Slot(i, slots[k].ref - 1), |nodes|);
      if nodes[i].nlink == 0 && slots[k].ref == 1 {
        nodes := nodes[i := NOBODY];
      }
      slots := slots[k := Slot(i, slots[k].ref - 1)];
    }

    /** dirlookup without the iget: the slot in the directory. */
    method FindName(d: nat, name: string) returns (k: Option<nat>)
      requires d < |nodes|
      ensures k == Lookup(nodes[d].entries, name)
    {
      var off := 0;
      while off < |nodes[d].entries|
        invariant off <= |nodes[d].entries| && Lookup(nodes[d].entries, name) == Lookup(nodes[d].entries, name, off)
      {
        var e := nodes[d].entries[off];
        if e.inum != 0 && SameName(name, e.name) {
          return Some(off);
        }
        off := off + 1;
      }
      return None;
    }

    /** dirlink's write, once the name is known to be new; false for its panic on a full directory. */
    method AddEntry(d: nat, name: string, i: nat) returns (ok: bool)
      requires d < |nodes|
      modifies this`nodes
      ensures ok <==> FreeSlot(old(nodes)[d].entries) < MAXENTRIES
      ensures !ok ==> nodes == old(nodes)
      ensures ok ==> nodes == EnterIn(old(Abs()), d, name, i).nodes
    {
      var es := nodes[d].entries;
      var off := 0;
      while off < |es|
        invariant off <= |es| && FreeSlot(es) == FreeSlot(es, off)
      {
        if es[off].inum == 0 {
          break;
        }
        off := off + 1;
      }
      if off >= MAXENTRIES {
        return false;
      }
      nodes := nodes[d := nodes[d].(entries := Enter(es, off, Dirent(i, Cut(name))))];
      return true;
    }

    method IsDirEmpty(d: nat) returns (r: bool)
      requires d < |nodes|
      ensures r == EmptyDir(nodes[d].entries)
    {
      var off := 2;
      while off < |nodes[d].entries|
        invariant 2 <= off && forall k :: 2 <= k < off && k < |nodes[d].entries| ==> nodes[d].entries[k].inum == 0
      {
        if nodes[d].entries[off].inum != 0 {
          return false;
        }
        off := off + 1;
      }
      return true;
    }

    lemma IsHeld(k: nat)
      requires Cached() && k < NINODE && slots[k].ref > 0
      ensures slots[k].inum < |nodes| && Abs().refs[slots[k].inum] == slots[k].ref
    {
      RefHere(slots, k);
    }

    /** The part of sys_unlink that changes things. */
    method Detach(dp: nat, ip: nat, k: nat)
      requires Cached() && dp < NINODE && ip < NINODE && slots[dp].ref > 0 && slots[ip].ref > 0
      requires slots[dp].inum != slots[ip].inum
      requires k < |nodes[slots[dp].inum].entries|
      modifies this`slots, this`nodes
      ensures Cached() && old(Abs().refs[slots[dp].inum] > 0 && Abs().refs[slots[ip].inum] > 0)
      ensures Abs() == UnlinkSteps(old(Abs()), old(slots[dp].inum), k, old(slots[ip].inum))
    {
      hide Refs, RefOf, Unique, Put;
      IsHeld(dp);
      IsHeld(ip);
      var d, t := slots[dp].inum, slots[ip].inum;
      nodes := nodes[d := nodes[d].(entries := nodes[d].entries[k := UNUSED])];
      if nodes[t].kind == Dir {
        nodes := nodes[d := nodes[d].(nlink := nodes[d].nlink - 1)];
      }
      Iput(dp);
      nodes := nodes[t := nodes[t].(nlink := nodes[t].nlink - 1)];
      Iput(ip);
    }

    /** sys_unlink: its only panic is a full inode cache. */
    method Unlink(dp: nat, name: string) returns (r: Outcome)
      requires Valid() && DirRef(dp)
      modifies this
      ensures old(HasDir(Abs(), slots[dp].inum)) && pending == old(pending)
      ensures r != Panicked ==> Valid() && r == UnlinkOutcome(old(Abs()), old(slots[dp].inum), name)
      ensures r != Panicked ==> Abs() == LinkRuns.Unlink(old(Abs()), old(slots[dp].inum), name)
      ensures r == Panicked <==> && !SameName(name, ".") && !SameName(name, "..")
                                 && NoSlotToFind(old(slots), old(nodes[slots[dp].inum]).entries, name)
      ensures r != Panicked ==>
                |nodes| == |old(nodes)| && UnlinkAnswer(old(Abs()), Abs(), old(slots[dp].inum), name, r)
    {
      hide Good, Lookup, EmptyDir, Refs, RefOf, Unique, Put, Get, UnlinkAt, NoSlotFor, UnlinkAnswer;
      IsHeld(dp);
      ghost var s := Abs();
      var d := slots[dp].inum;
      UnlinkGood(s, d, name);
      UnlinkMeans(s, d, name);
      if SameName(name, ".") || SameName(name, "..") {
        Iput(dp);
        return Failed;
      }
      var k := FindName(d, name);
      if k == None {
        Iput(dp);
        return Failed;
      }
      FoundName(s, d, name);
      var t := nodes[d].entries[k.value].inum;
      var ip := Iget(t);
      if ip == None {
        return Panicked;
      }
      GetPutBoth(s, d, t);
      if nodes[t].kind == Dir {
        var empty := IsDirEmpty(t);
        if !empty {
          GetPutGood(s, t);
          Iput(ip.value);
          Iput(dp);
          return Failed;
        }
      }
      UnlinkOrder(s, d, name);
      Detach(dp, ip.value, k.value);
      return Done(t);
    }

    /** sys_link up to its first iunlock; false if ip is a directory. */
    method LinkBegin(ip: nat) returns (ok: bool)
      requires Valid() && ip < NINODE && slots[ip].ref > pending[slots[ip].inum]
      modifies this
      ensures Valid() && ok == (old(nodes[slots[ip].inum].kind) != Dir)
      ensures old(slots[ip].inum) < |old(nodes)| && old(Abs()).refs[old(slots[ip].inum)] > 0
      ensures Abs() == Links.LinkBegin(old(Abs()), old(slots[ip].inum))
      ensures ok ==> slots == old(slots)
    {
      hide Good, Refs, Unique;
      IsHeld(ip);
      var i := slots[ip].inum;
      LinkBeginGood(Abs(), i);
      if nodes[i].kind == Dir {
        Iput(ip);
        return false;
      }
      nodes := nodes[i := nodes[i].(nlink := nodes[i].nlink + 1)];
      pending := pending + multiset{i};
      return true;
    }

    /** The exit of sys_link that takes the count back. */
    method LinkBad(ip: nat)
      requires Cached() && ip < NINODE && slots[ip].ref > 0
      modifies this
      ensures Cached() && old(slots[ip].inum) < |old(nodes)| && old(Abs()).refs[old(slots[ip].inum)] > 0
      ensures Abs() == LinkFail(old(Abs()), old(slots[ip].inum))
    {
      hide Refs, Unique, Put;
      IsHeld(ip);
      var i := slots[ip].inum;
      nodes := nodes[i := nodes[i].(nlink := nodes[i].nlink - 1)];
      pending := pending - multiset{i};
      Iput(ip);
    }

    method LinkDone(ip: nat, dp: nat, name: string) returns (r: Outcome)
      requires Cached() && ip < NINODE && dp < NINODE && ip != dp && slots[ip].ref > 0 && slots[dp].ref > 0
      modifies this
      ensures var i, d := old(slots[ip].inum), old(slots[dp].inum);
              && i < |old(nodes)| && d < |old(nodes)| && i != d && old(Abs()).refs[i] > 0 && old(Abs()).refs[d] > 0
              && (r == Panicked || r == Done(0)) && (r == Panicked <==> FreeSlot(old(nodes)[d].entries) >= MAXENTRIES)
              && (r != Panicked ==> Cached() && Put(LinkEnter(old(Abs()), i, d, name), d).refs[i] > 0)
              && (r != Panicked ==> Abs() == Put(Put(LinkEnter(old(Abs()), i, d, name), d), i))
    {
      hide Refs, RefOf, FreeSlot, Enter;
      IsHeld(ip);
      IsHeld(dp);
      var i, d := slots[ip].inum, slots[dp].inum;
      assert i != d;
      hide Unique, Put;
      ghost var s := Abs();
      var ok := AddEntry(d, name, i);
      if !ok {
        return Panicked;
      }
      pending := pending - multiset{i};
      assert Abs() == LinkEnter(s, i, d, name);
      PutOther(Abs(), d, i);
      Iput(dp);
      Iput(ip);
      return Done(0);
    }

    /** The rest of sys_link, after any number of other calls. */
    method LinkFinish(ip: nat, dp: Option<nat>, name: string, sameDev: bool) returns (r: Outcome)
      requires Valid() && ip < NINODE && slots[ip].ref > 0 && pending[slots[ip].inum] > 0
      requires dp.Some? ==> DirRef(dp.value) && dp.value != ip
      modifies this
      ensures var d := if dp == None then None else Some(old(slots[dp.value].inum));
              && (d.Some? ==> HasDir(old(Abs()), d.value)) && HasFile(old(Abs()), old(slots[ip].inum))
              && (r != Panicked ==> r == LinkOutcome(old(Abs()), d, name, sameDev))
              && (r != Panicked ==> Abs() == LinkEnd(old(Abs()), old(slots[ip].inum), d, name, sameDev))
              && (r == Panicked <==>
                    || LinkOutcome(old(Abs()), d, name, sameDev) == Panicked
                    || (d.Some? && sameDev && NoSlotToFind(old(slots), old(nodes)[d.value].entries, name)))
              && (r == Failed || (r.Done? && Linked(old(nodes)[d.value])) ==> Valid())
              && (r != Panicked ==> |nodes| == |old(nodes)|)
              && (r != Panicked ==> LinkAnswer(old(Abs()), Abs(), old(slots[ip].inum), d, name, sameDev, r))
    {
      hide Good, Refs, Unique, Put, Lookup, FreeSlot, LinkEnter, AddLinks, NoSlotFor, LinkAnswer;
      IsHeld(ip);
      ghost var s := Abs();
      PendingKind(s);
      var i := slots[ip].inum;
      if dp.Some? { IsHeld(dp.value); }
      LinkMeans(s, i, if dp == None then None else Some(slots[dp.value].inum), name, sameDev);
      if dp == None {
        LinkEndGood(s, i, None, name, sameDev);
        LinkBad(ip);
        return Failed;
      }
      IsHeld(dp.value);
      var d := slots[dp.value].inum;
      if sameDev {
        var k := FindName(d, name);
        if k == None {
          if Linked(nodes[d]) { LinkEndGood(s, i, Some(d), name, sameDev); }
          r := LinkDone(ip, dp.value, name);
          return;
        }
        var t := nodes[d].entries[k.value].inum;
        EntryInRange(s, d, k.value);
        var found := Iget(t);
        if found == None {
          return Panicked;
        }
        GetPutGood(s, t);
        Iput(found.value);
      }
      LinkEndGood(s, i, Some(d), name, sameDev);
      Iput(dp.value);
      LinkBad(ip);
      return Failed;
    }

    /** ialloc's scan; None is its panic. */
    method FindFree() returns (n: Option<nat>)
      requires |nodes| > 1
      ensures n == Blank(nodes)
    {
      var i := 1;
      while i < |nodes|
        invariant 1 <= i <= |nodes| && Blank(nodes) == Blank(nodes, i)
      {
        if nodes[i].kind == Free {
          return Some(i);
        }
        i := i + 1;
      }
      return None;
    }

    /** create's new inode n under directory d, before it has its name. */
    method MakeNode(d: nat, kind: Kind, n: nat)
      requires 0 < n < |nodes| && 0 < d < |nodes| && n != d && nodes[n] == Node(kind, 0, [])
      modifies this`nodes
      ensures var parent := old(nodes)[d].(nlink := old(nodes)[d].nlink + if kind == Dir then 1 else 0);
              nodes == old(nodes)[d := parent][n := NewNode(kind, n, d)]
    {
      nodes := nodes[n := nodes[n].(nlink := 1)];
      if kind == Dir {
        nodes := nodes[d := nodes[d].(nlink := nodes[d].nlink + 1)];
        DotsEntered(n, d);
        var dot := AddEntry(n, ".", n);
        var dotdot := AddEntry(n, "..", d);
      }
      assert nodes[n].entries == NewNode(kind, n, d).entries;
      assert nodes[d] == old(nodes)[d].(nlink := old(nodes)[d].nlink + if kind == Dir then 1 else 0);
    }

    /** create when the name is new; the reference to n is in slot ip. */
    method CreateNew(dp: nat, name: string, kind: Kind) returns (r: Outcome, ip: nat)
      requires Valid() && DirRef(dp) && kind != Free && Lookup(nodes[slots[dp].inum].entries, name) == None
      modifies this
      ensures var d := old(slots[dp].inum);
              && HasDir(old(Abs()), d) && pending == old(pending) && r != Failed
              && (r != Panicked ==> r == CreateOutcome(old(Abs()), d, name, kind))
              && (r != Panicked ==> Abs() == LinkRuns.Create(old(Abs()), d, name, kind))
              && (r != Panicked ==> Cached() && ip < NINODE && slots[ip].inum == r.inum && slots[ip].ref > 0)
              && (r == Panicked <==>
                    || CreateOutcome(old(Abs()), d, name, kind) == Panicked
                    || NoSlotToCreate(old(slots), old(Abs()), d, name))
    {
      hide Good, Refs, Unique, Put, Get, Lookup, FreeSlot, Enter, Blank, NoSlotFor, NewNode;
      IsHeld(dp);
      ghost var s := Abs();
      var d := slots[dp].inum;
      ip := 0;
      Sizes(s, d);
      var n := FindFree();
      if n == None {
        return Panicked, 0;
      }
      FreeIsNobody(s, n.value);
      nodes := nodes[n.value := Node(kind, 0, [])];
      ghost var s1 := Abs();
      var p := Iget(n.value);
      if p == None {
        return Panicked, 0;
      }
      MakeNode(d, kind, n.value);
      var ok := AddEntry(d, name, n.value);
      if !ok {
        return Panicked, 0;
      }
      CreatedSame(s, s1, d, name, kind, n.value, nodes);
      Iput(dp);
      return Done(n.value), p.value;
    }

    method Create(dp: nat, name: string, kind: Kind) returns (r: Outcome, ip: nat)
      requires Valid() && DirRef(dp) && kind != Free
      modifies this
      ensures var d := old(slots[dp].inum);
              && HasDir(old(Abs()), d)
              && (r != Panicked ==> r == CreateOutcome(old(Abs()), d, name, kind))
              && (r != Panicked ==> Abs() == LinkRuns.Create(old(Abs()), d, name, kind))
              && (r.Done? ==> Cached() && ip < NINODE && slots[ip].inum == r.inum && slots[ip].ref > 0)
              && (r == Panicked <==>
                    || CreateOutcome(old(Abs()), d, name, kind) == Panicked
                    || NoSlotToCreate(old(slots), old(Abs()), d, name))
              && (r == Failed || (r.Done? && (Linked(old(nodes)[d]) || Names(old(nodes)[d].entries, name))) ==> Valid())
              && (r != Panicked ==> |nodes| == |old(nodes)| && CreateAnswer(old(Abs()), Abs(), d, name, kind, r))
    {
      hide Good, Refs, Unique, Put, Get, Lookup, FreeSlot, Enter, Blank, CreateAt, CreateAnswer, NoSlotFor;
      IsHeld(dp);
      ghost var s := Abs();
      var d := slots[dp].inum;
      CreateMeans(s, d, name, kind);
      if Linked(nodes[d]) || Names(nodes[d].entries, name) || !CreateOutcome(s, d, name, kind).Done? {
        CreateCallGood(s, d, name, kind);
      }
      var k := FindName(d, name);
      if k == None {
        r, ip := CreateNew(dp, name, kind);
        return;
      }
      ip := 0;
      var t := nodes[d].entries[k.value].inum;
      EntryInRange(s, d, k.value);
      var found := Iget(t);
      if found == None {
        return Panicked, 0;
      }
      GetPutBoth(s, d, t);
      FoundKind(s, d, t);
      Iput(dp);
      if nodes[t].kind == Free {
        return Panicked, 0;
      }
      if kind == File && nodes[t].kind == File {
        return Done(t), found.value;
      }
      Iput(found.value);
      return Failed, 0;
    }
  }
}
