/** Every call of sysfile.c keeps the link counts right. */
module LinkFacts {
  import opened Common
  import opened Links

  // ---- Counting ----

  lemma {:induction false} CountInSet(es: seq<Dirent>, k: nat, e: Dirent, i: nat)
    requires k < |es|
    ensures CountIn(es[k := e], i) + (if Counts(es[k], i) then 1 else 0)
            == CountIn(es, i) + if Counts(e, i) then 1 else 0
  {
    var fs, m := es[k := e], |es| - 1;
    if k < m {
      assert fs[..m] == es[..m][k := e];
      CountInSet(es[..m], k, e, i);
    } else {
      assert fs[..m] == es[..m];
    }
  }

  lemma CountInEnter(es: seq<Dirent>, k: nat, e: Dirent, i: nat)
    requires k <= |es| && (k < |es| ==> es[k].inum == 0)
    ensures CountIn(Enter(es, k, e), i) == CountIn(es, i) + if Counts(e, i) then 1 else 0
  {
    if k < |es| {
      CountInSet(es, k, e, i);
    } else {
      assert (es + [e])[..|es|] == es;
    }
  }

  lemma {:induction false} CountInZero(es: seq<Dirent>, i: nat)
    requires forall k :: 0 <= k < |es| ==> !Counts(es[k], i)
    ensures CountIn(es, i) == 0
  {
    if es != [] { CountInZero(es[..|es| - 1], i); }
  }

  lemma {:induction false} CountInSome(es: seq<Dirent>, k: nat, i: nat)
    requires k < |es| && Counts(es[k], i)
    ensures CountIn(es, i) > 0
  {
    if k < |es| - 1 { CountInSome(es[..|es| - 1], k, i); }
  }

  /** Only slot k counts. */
  lemma CountInOne(es: seq<Dirent>, k: nat, i: nat)
    requires k < |es| && Counts(es[k], i) && forall j :: 0 <= j < |es| && j != k ==> !Counts(es[j], i)
    ensures CountIn(es, i) == 1
  {
    CountInSet(es, k, UNUSED, i);
    CountInZero(es[k := UNUSED], i);
  }

  /** A directory with no names of its own counts only as its parent's link. */
  lemma EmptyDirCount(es: seq<Dirent>, d: nat, n: nat, i: nat)
    requires DirShape(es, d, n) && EmptyDir(es)
    ensures CountIn(es, i) == if i == es[1].inum then 1 else 0
  {
    if i == es[1].inum { CountInOne(es, 1, i); } else { CountInZero(es, i); }
  }

  lemma {:induction false} CountSet(nodes: seq<Node>, d: nat, n: Node, i: nat)
    requires d < |nodes|
    ensures Count(nodes[d := n], i) + Term(nodes[d], i) == Count(nodes, i) + Term(n, i)
  {
    var m := |nodes| - 1;
    if d < m {
      assert nodes[d := n][..m] == nodes[..m][d := n];
      CountSet(nodes[..m], d, n, i);
    } else {
      assert nodes[d := n][..m] == nodes[..m];
    }
  }

  lemma {:induction false} CountZero(nodes: seq<Node>, i: nat)
    requires forall d :: 0 <= d < |nodes| ==> Term(nodes[d], i) == 0
    ensures Count(nodes, i) == 0
  {
    if nodes != [] { CountZero(nodes[..|nodes| - 1], i); }
  }

  lemma CountOne(nodes: seq<Node>, d: nat, i: nat)
    requires d < |nodes| && forall e :: 0 <= e < |nodes| && e != d ==> Term(nodes[e], i) == 0
    ensures Count(nodes, i) == Term(nodes[d], i)
  {
    CountSet(nodes, d, NOBODY, i);
    CountZero(nodes[d := NOBODY], i);
  }

  lemma CountTwo(nodes: seq<Node>, d: nat, e: nat, i: nat)
    requires d < |nodes| && e < |nodes| && d != e
    ensures Count(nodes, i) >= Term(nodes[d], i) + Term(nodes[e], i)
  {
    CountSet(nodes, d, NOBODY, i);
    CountSet(nodes[d := NOBODY], e, NOBODY, i);
  }

  // ---- Names ----

  lemma NameCounts(nodes: seq<Node>, d: nat, k: nat, t: nat)
    requires d < |nodes| && Linked(nodes[d]) && Shape(nodes, d) && 1 <= k < |nodes[d].entries|
    requires nodes[d].entries[k].inum == t != 0
    ensures Counts(nodes[d].entries[k], t) && Term(nodes[d], t) > 0 && Count(nodes, t) > 0
  {
    var es := nodes[d].entries;
    assert !SameName(es[0].name, es[k].name);
    CountInSome(es, k, t);
    CountSet(nodes, d, NOBODY, t);
  }

  /** What a linked directory names is allocated. */
  lemma NamedIsAllocated(s: State, d: nat, k: nat)
    requires Core(s) && d < |s.nodes| && Linked(s.nodes[d]) && 1 <= k < |s.nodes[d].entries|
    requires s.nodes[d].entries[k].inum != 0
    ensures var t := s.nodes[d].entries[k].inum; t < |s.nodes| && s.nodes[t].nlink > 0 && s.nodes[t].kind != Free
  {
    assert Shape(s.nodes, d);
    var t := s.nodes[d].entries[k].inum;
    NameCounts(s.nodes, d, k, t);
    assert Shape(s.nodes, t);
  }

  /** An empty directory with a name has that name and no other link. */
  lemma EmptyDirHasOneLink(s: State, d: nat, k: nat)
    requires Core(s) && d < |s.nodes| && k < |s.nodes[d].entries| && NamedAt(s.nodes, d, k, s.nodes[d].entries[k].inum)
    requires s.nodes[d].entries[k].inum != 0
    requires var t := s.nodes[d].entries[k].inum;
             t < |s.nodes| && s.nodes[t].kind == Dir && EmptyDir(s.nodes[t].entries)
    ensures var t := s.nodes[d].entries[k].inum;
            && t != ROOTINO && t != d && Linked(s.nodes[t]) && HomeAt(s.nodes, t, k) && s.nodes[t].entries[1].inum == d
            && s.nodes[t].nlink == 1 && s.nodes[d].nlink >= 2
  {
    var nodes, t := s.nodes, s.nodes[d].entries[k].inum;
    NamedIsAllocated(s, d, k);
    assert Shape(nodes, d) && Shape(nodes, t);
    assert HasHome(nodes, t);
    var j :| HomeAt(nodes, t, j);
    assert NamedAt(nodes, d, k, t);
    forall e | 0 <= e < |nodes| && e != d ensures Term(nodes[e], t) == 0 { OnlyNameElsewhere(nodes, e, t, d, k); }
    OnlyNameHere(nodes, d, t, k);
    CountOne(nodes, d, t);
    NameCounts(nodes, t, 1, d);
    assert d == ROOTINO || HasHome(nodes, d);
    if d == ROOTINO {
      NameCounts(nodes, d, 1, d);
      CountTwo(nodes, d, t, d);
    } else {
      var h :| HomeAt(nodes, d, h);
      var p := nodes[d].entries[1].inum;
      assert Shape(nodes, p);
      NameCounts(nodes, p, h, d);
      CountTwo(nodes, p, t, d);
    }
  }

  lemma OnlyNameElsewhere(nodes: seq<Node>, e: nat, t: nat, d: nat, k: nat)
    requires Tree(nodes) && e < |nodes| && t < |nodes| && t != ROOTINO && nodes[t].kind == Dir
    requires EmptyDir(nodes[t].entries)
    requires HomeAt(nodes, t, k) && nodes[t].entries[1].inum == d && e != d
    ensures Term(nodes[e], t) == 0
  {
    assert Shape(nodes, e);
    if Linked(nodes[e]) {
      var es := nodes[e].entries;
      forall j: nat | j < |es| ensures !Counts(es[j], t) {
        assert j >= 2 && es[j].inum == t ==> NamedAt(nodes, e, j, t);
        if j == 1 && es[1].inum == t { ParentNamesChild(nodes, e); }
      }
      CountInZero(es, t);
    }
  }

  lemma OnlyNameHere(nodes: seq<Node>, d: nat, t: nat, k: nat)
    requires Tree(nodes) && d < |nodes| && t < |nodes| && t != ROOTINO && nodes[t].kind == Dir
    requires EmptyDir(nodes[t].entries)
    requires HomeAt(nodes, t, k) && nodes[t].entries[1].inum == d
    ensures Term(nodes[d], t) == 1
  {
    assert Shape(nodes, d) && NamedAt(nodes, d, k, t);
    var es := nodes[d].entries;
    forall j: nat | j < |es| && j != k ensures !Counts(es[j], t) {
      assert j >= 2 && es[j].inum == t ==> NamedAt(nodes, d, j, t);
      if j == 1 && es[1].inum == t { ParentNamesChild(nodes, d); }
    }
    NameCounts(nodes, d, k, t);
    CountInOne(es, k, t);
  }

  /** A linked directory's parent is the root of itself, or has a name for it. */
  lemma ParentNamesChild(nodes: seq<Node>, c: nat)
    requires Tree(nodes) && c < |nodes| && Linked(nodes[c])
    ensures Shape(nodes, c)
    ensures var p := nodes[c].entries[1].inum; p == ROOTINO || (p < |nodes| && !EmptyDir(nodes[p].entries))
  {
    assert Shape(nodes, c);
    if c != ROOTINO {
      assert HasHome(nodes, c);
      var k :| HomeAt(nodes, c, k);
    }
  }

  // ---- References ----

  /** Freeing an inode that nothing names or holds. */
  lemma ReleaseCore(s: State, i: nat)
    requires Core(s) && i < |s.nodes|
    ensures Core(Release(s, i)) && Alive(Release(s, i), i)
    ensures forall j: nat :: j < |s.nodes| && j != i && Alive(s, j) ==> Alive(Release(s, i), j)
  {
    var s' := Release(s, i);
    if s' != s {
      forall j: nat | j < |s.nodes| ensures Shape(s'.nodes, j) { assert Shape(s.nodes, j); }
      forall j: nat | j < |s.nodes| ensures Count(s'.nodes, j) == Count(s.nodes, j) { CountSet(s.nodes, i, NOBODY, j); }
      SameLinked(s.nodes, s'.nodes);
    }
  }

  /** The tree only looks at linked directories, and at the shape of the rest. */
  lemma SameLinked(nodes: seq<Node>, nodes': seq<Node>)
    requires Tree(nodes) && |nodes'| == |nodes| && nodes'[0].kind == Free
    requires forall i: nat :: i < |nodes| ==> Shape(nodes', i)
    requires forall i :: 0 <= i < |nodes| ==> (Linked(nodes[i]) <==> Linked(nodes'[i]))
    requires forall i :: 0 <= i < |nodes| && Linked(nodes[i]) ==> nodes'[i].entries == nodes[i].entries
    requires forall i :: 0 <= i < |nodes| && nodes'[i].kind == Dir && nodes'[i].nlink == 0 ==>
               EmptyDir(nodes'[i].entries)
    ensures Tree(nodes')
  {
    assert forall d, k: nat, c: nat :: NamedAt(nodes', d, k, c) == NamedAt(nodes, d, k, c);
    forall c: nat | c < |nodes| && c != ROOTINO && Linked(nodes'[c]) ensures HasHome(nodes', c) {
      assert HasHome(nodes, c);
      var k :| HomeAt(nodes, c, k);
      assert HomeAt(nodes', c, k);
    }
  }

  lemma PutCore(s: State, i: nat)
    requires Core(s) && i < |s.nodes| && s.refs[i] > s.pending[i]
    ensures |Put(s, i).nodes| == |Put(s, i).refs| == |s.nodes| && Core(Put(s, i)) && Alive(Put(s, i), i)
    ensures forall j: nat :: j < |s.nodes| && j != i && Alive(s, j) ==> Alive(Put(s, i), j)
  {
    hide Tree, Count;
    var s1 := s.(refs := s.refs[i := s.refs[i] - 1]);
    ReleaseCore(s1, i);
  }

  lemma GetGood(s: State, i: nat)
    requires Good(s) && i < |s.nodes| && s.nodes[i].kind != Free
    ensures Good(Get(s, i))
  {
    hide Tree, Count;
    forall j: nat | j < |s.nodes| ensures Alive(Get(s, i), j) { assert Alive(s, j); }
  }

  lemma PutGood(s: State, i: nat)
    requires Good(s) && i < |s.nodes| && s.refs[i] > s.pending[i]
    ensures Good(Put(s, i))
  {
    hide Core, Alive;
    PutCore(s, i);
  }

  // ---- link ----

  lemma AddLinksCount(s: State, i: nat, n: int)
    requires i < |s.nodes| && s.nodes[i].kind != Dir
    ensures forall j :: Count(AddLinks(s, i, n).nodes, j) == Count(s.nodes, j)
  {
    forall j ensures Count(AddLinks(s, i, n).nodes, j) == Count(s.nodes, j) {
      CountSet(s.nodes, i, AddLinks(s, i, n).nodes[i], j);
    }
  }

  lemma LinkBeginGood(s: State, i: nat)
    requires Good(s) && i < |s.nodes| && s.refs[i] > s.pending[i]
    ensures Good(LinkBegin(s, i))
  {
    hide Tree, Count, Put;
    if s.nodes[i].kind == Dir {
      PutGood(s, i);
    } else {
      var s' := LinkBegin(s, i);
      AddLinksCount(s, i, 1);
      TreeAddLinks(s, i, 1);
      assert forall j: nat :: s'.pending[j] == if j == i then s.pending[j] + 1 else s.pending[j];
      forall j: nat | j < |s.nodes| ensures Alive(s', j) { assert Alive(s, j); }
    }
  }

  lemma TreeAddLinks(s: State, i: nat, n: int)
    requires Tree(s.nodes) && i < |s.nodes| && s.nodes[i].kind != Dir && s.nodes[i].kind != Free
    ensures Tree(AddLinks(s, i, n).nodes)
  {
    var nodes' := AddLinks(s, i, n).nodes;
    forall j: nat | j < |s.nodes| ensures Shape(nodes', j) { assert Shape(s.nodes, j); }
    SameLinked(s.nodes, nodes');
  }

  lemma LinkFailGood(s: State, i: nat)
    requires Good(s) && i < |s.nodes| && s.pending[i] > 0
    ensures Good(LinkFail(s, i))
  {
    hide Tree, Count, Put;
    var s1 := AddLinks(s, i, -1).(pending := s.pending - multiset{i});
    AddLinksCount(s, i, -1);
    TreeAddLinks(s, i, -1);
    assert forall j: nat :: s1.pending[j] == if j == i then s.pending[j] - 1 else s.pending[j];
    assert Core(s1);
    PutCore(s1, i);
    assert LinkFail(s, i) == Put(s1, i);
    forall j: nat | j < |s.nodes| && j != i ensures Alive(LinkFail(s, i), j) { assert Alive(s, j) && Alive(s1, j); }
  }

  /** Undone before anything else happens, a link that fails changes no inode. */
  lemma LinkFailUndoes(s: State, i: nat)
    requires Good(s) && i < |s.nodes| && s.refs[i] > s.pending[i] && s.nodes[i].kind != Dir
    ensures LinkFail(LinkBegin(s, i), i) == Put(s, i)
  {
    var b := LinkBegin(s, i);
    assert AddLinks(b, i, -1).nodes == s.nodes;
    assert b.pending - multiset{i} == s.pending;
  }

  /** A new entry in a linked directory is counted once, for the inode it names. */
  lemma EnterCount(s: State, d: nat, name: string, i: nat)
    requires d < |s.nodes| && Linked(s.nodes[d]) && Cut(name) != "." && i != 0
    ensures forall j :: Count(EnterIn(s, d, name, i).nodes, j) == Count(s.nodes, j) + if j == i then 1 else 0
  {
    var es := s.nodes[d].entries;
    forall j ensures Count(EnterIn(s, d, name, i).nodes, j) == Count(s.nodes, j) + if j == i then 1 else 0 {
      CountSet(s.nodes, d, EnterIn(s, d, name, i).nodes[d], j);
      CountInEnter(es, FreeSlot(es), Dirent(i, Cut(name)), j);
    }
  }

  lemma EnterShape(nodes: seq<Node>, d: nat, name: string, i: nat)
    requires d < |nodes| && nodes[d].kind == Dir && Shape(nodes, d) && Lookup(nodes[d].entries, name) == None
    requires FreeSlot(nodes[d].entries) < MAXENTRIES && i < |nodes|
    ensures var es := nodes[d].entries;
            && FreeSlot(es) >= 2 && Cut(name) != "."
            && DirShape(Enter(es, FreeSlot(es), Dirent(i, Cut(name))), d, |nodes|)
  {
    var es := nodes[d].entries;
    assert es[0].inum != 0 && es[1].inum != 0;
    assert !SameName(es[0].name, name);
    var k, e := FreeSlot(es), Dirent(i, Cut(name));
    var fs := Enter(es, k, e);
    forall a, b | 0 <= a < b < |fs| && fs[a].inum != 0 && fs[b].inum != 0 ensures !SameName(fs[a].name, fs[b].name) {
      assert Cut(e.name) == Cut(name);
      assert a != k ==> fs[a] == es[a];
      assert b != k ==> fs[b] == es[b];
    }
  }

  /** Naming something that is not a directory leaves every directory at home. */
  lemma EnterTree(s: State, d: nat, name: string, i: nat)
    requires Tree(s.nodes) && d < |s.nodes| && Linked(s.nodes[d]) && Lookup(s.nodes[d].entries, name) == None
    requires FreeSlot(s.nodes[d].entries) < MAXENTRIES && 0 < i < |s.nodes| && s.nodes[i].kind != Dir
    ensures Tree(EnterIn(s, d, name, i).nodes)
  {
    var nodes, nodes' := s.nodes, EnterIn(s, d, name, i).nodes;
    assert Shape(nodes, d);
    EnterShape(nodes, d, name, i);
    forall j: nat | j < |nodes| ensures Shape(nodes', j) { assert Shape(nodes, j); }
    EnterNames(s, d, name, i);
    forall c: nat | c < |nodes| && c != ROOTINO && Linked(nodes'[c]) ensures HasHome(nodes', c) {
      assert HasHome(nodes, c);
      var k :| HomeAt(nodes, c, k);
      assert nodes'[c].entries[1] == nodes[c].entries[1] by { assert Shape(nodes, c); }
      assert HomeAt(nodes', c, k);
    }
  }

  lemma EnterNames(s: State, d: nat, name: string, i: nat)
    requires d < |s.nodes| && Linked(s.nodes[d]) && FreeSlot(s.nodes[d].entries) >= 2 && i != 0
    ensures forall e: nat, k: nat, c: nat :: c != 0 ==>
              (NamedAt(EnterIn(s, d, name, i).nodes, e, k, c) <==>
                NamedAt(s.nodes, e, k, c) || (e == d && k == FreeSlot(s.nodes[d].entries) && c == i))
  {
  }

  lemma LinkEnterGood(s: State, i: nat, d: nat, name: string)
    requires Good(s) && i < |s.nodes| && s.pending[i] > 0 && d < |s.nodes| && Linked(s.nodes[d])
    requires Lookup(s.nodes[d].entries, name) == None && FreeSlot(s.nodes[d].entries) < MAXENTRIES
    ensures Good(LinkEnter(s, i, d, name))
  {
    hide Count, NamedAt, HasHome, Lookup, FreeSlot, Enter, DirShape;
    var s' := LinkEnter(s, i, d, name);
    assert Shape(s.nodes, d);
    EnterShape(s.nodes, d, name, i);
    EnterTree(s, d, name, i);
    EnterCount(s, d, name, i);
    forall j: nat | j < |s.nodes| ensures Alive(s', j) { assert Alive(s, j); }
    assert forall j: nat :: s'.pending[j] == if j == i then s.pending[j] - 1 else s.pending[j];
  }

  // ---- unlink ----

  /** Unlinking a file or device. */
  lemma UnlinkFileCore(s: State, d: nat, k: nat)
    requires Good(s) && d < |s.nodes| && Linked(s.nodes[d]) && 2 <= k < |s.nodes[d].entries|
    requires s.nodes[d].entries[k].inum != 0
    requires s.nodes[d].entries[k].inum < |s.nodes| && s.nodes[s.nodes[d].entries[k].inum].kind != Dir
    ensures var t := s.nodes[d].entries[k].inum;
            Core(UnlinkAt(s, d, k)) && forall j: nat :: j < |s.nodes| && j != t ==> Alive(UnlinkAt(s, d, k), j)
  {
    hide Count, HasHome, DirShape, NamedAt, EmptyDir;
    var t, c := s.nodes[d].entries[k].inum, ClearAt(s, d, k);
    NamedIsAllocated(s, d, k);
    ClearTree(s, d, k);
    ClearCount(s, d, k);
    AddLinksCount(c, t, -1);
    TreeAddLinks(c, t, -1);
    forall j: nat | j < |s.nodes| && j != t ensures Alive(UnlinkAt(s, d, k), j) { assert Alive(s, j); }
  }

  lemma ClearCount(s: State, d: nat, k: nat)
    requires d < |s.nodes| && Shape(s.nodes, d) && Linked(s.nodes[d]) && 2 <= k < |s.nodes[d].entries|
    requires s.nodes[d].entries[k].inum != 0
    ensures forall j :: Count(ClearAt(s, d, k).nodes, j) + (if j == s.nodes[d].entries[k].inum then 1 else 0)
              == Count(s.nodes, j)
  {
    var es := s.nodes[d].entries;
    NameCounts(s.nodes, d, k, es[k].inum);
    forall j ensures Count(ClearAt(s, d, k).nodes, j) + (if j == es[k].inum then 1 else 0) == Count(s.nodes, j) {
      CountSet(s.nodes, d, ClearAt(s, d, k).nodes[d], j);
      CountInSet(es, k, UNUSED, j);
    }
  }

  lemma ClearShape(nodes: seq<Node>, d: nat, k: nat)
    requires d < |nodes| && nodes[d].kind == Dir && Shape(nodes, d) && 2 <= k < |nodes[d].entries|
    ensures DirShape(nodes[d].entries[k := UNUSED], d, |nodes|)
  {
  }

  lemma ClearNames(s: State, d: nat, k: nat)
    requires d < |s.nodes| && Linked(s.nodes[d]) && 2 <= k < |s.nodes[d].entries|
    ensures forall e: nat, j: nat, c: nat :: c != 0 ==>
              (NamedAt(ClearAt(s, d, k).nodes, e, j, c) <==> NamedAt(s.nodes, e, j, c) && !(e == d && j == k))
  {
  }

  lemma ClearTree(s: State, d: nat, k: nat)
    requires Tree(s.nodes) && d < |s.nodes| && Linked(s.nodes[d]) && 2 <= k < |s.nodes[d].entries|
    requires s.nodes[d].entries[k].inum < |s.nodes| && s.nodes[s.nodes[d].entries[k].inum].kind != Dir
    ensures Tree(ClearAt(s, d, k).nodes) && Shape(s.nodes, d)
  {
    var nodes, nodes' := s.nodes, ClearAt(s, d, k).nodes;
    assert Shape(nodes, d);
    ClearShape(nodes, d, k);
    ClearNames(s, d, k);
    forall j: nat | j < |nodes| ensures Shape(nodes', j) { assert Shape(nodes, j); }
    forall c: nat | c < |nodes| && c != ROOTINO && Linked(nodes'[c]) ensures HasHome(nodes', c) {
      assert HasHome(nodes, c);
      var h :| HomeAt(nodes, c, h);
      assert nodes'[c].entries[1] == nodes[c].entries[1] by { assert Shape(nodes, c); }
      assert HomeAt(nodes', c, h);
    }
  }

  /** Unlinking an empty directory: it stops being linked, and so does its "..". */
  lemma UnlinkDirCore(s: State, d: nat, k: nat)
    requires Good(s) && d < |s.nodes| && Linked(s.nodes[d]) && 2 <= k < |s.nodes[d].entries|
    requires s.nodes[d].entries[k].inum != 0
    requires var t := s.nodes[d].entries[k].inum;
             t < |s.nodes| && s.nodes[t].kind == Dir && EmptyDir(s.nodes[t].entries)
    ensures var t := s.nodes[d].entries[k].inum;
            Core(UnlinkAt(s, d, k)) && forall j: nat :: j < |s.nodes| && j != t ==> Alive(UnlinkAt(s, d, k), j)
  {
    hide Count, HasHome, DirShape, EmptyDir;
    var t, s' := s.nodes[d].entries[k].inum, UnlinkAt(s, d, k);
    EmptyDirHasOneLink(s, d, k);
    UnlinkDirTree(s, d, k);
    UnlinkDirCount(s, d, k);
    forall j: nat | j < |s.nodes| && j != t ensures Alive(s', j) { assert Alive(s, j); }
  }

  lemma UnlinkDirCount(s: State, d: nat, k: nat)
    requires d < |s.nodes| && Linked(s.nodes[d]) && Shape(s.nodes, d) && 2 <= k < |s.nodes[d].entries|
    requires s.nodes[d].entries[k].inum != 0
    requires var t := s.nodes[d].entries[k].inum;
             && t < |s.nodes| && t != d && Shape(s.nodes, t) && Linked(s.nodes[t]) && EmptyDir(s.nodes[t].entries)
             && s.nodes[t].entries[1].inum == d && s.nodes[t].nlink == 1 && s.nodes[d].nlink >= 2
    ensures var t := s.nodes[d].entries[k].inum;
            forall j :: Count(UnlinkAt(s, d, k).nodes, j) + (if j == t || j == d then 1 else 0) == Count(s.nodes, j)
  {
    var t, c := s.nodes[d].entries[k].inum, ClearAt(s, d, k);
    ClearCount(s, d, k);
    var c1 := AddLinks(c, d, -1);
    forall j ensures Count(UnlinkAt(s, d, k).nodes, j) + (if j == t || j == d then 1 else 0) == Count(s.nodes, j) {
      CountSet(c.nodes, d, c1.nodes[d], j);
      CountSet(c1.nodes, t, UnlinkAt(s, d, k).nodes[t], j);
      EmptyDirCount(s.nodes[t].entries, t, |s.nodes|, j);
    }
  }

  lemma UnlinkDirTree(s: State, d: nat, k: nat)
    requires Tree(s.nodes) && d < |s.nodes| && Linked(s.nodes[d]) && 2 <= k < |s.nodes[d].entries|
    requires s.nodes[d].entries[k].inum != 0
    requires var t := s.nodes[d].entries[k].inum;
             && t < |s.nodes| && t != d && t != ROOTINO && Linked(s.nodes[t]) && EmptyDir(s.nodes[t].entries)
             && HomeAt(s.nodes, t, k)
             && s.nodes[t].nlink == 1 && s.nodes[d].nlink >= 2
    ensures Tree(UnlinkAt(s, d, k).nodes) && Shape(s.nodes, d) && Shape(s.nodes, s.nodes[d].entries[k].inum)
  {
    hide NamedAt, UniqueNames;
    var nodes, nodes', t := s.nodes, UnlinkAt(s, d, k).nodes, s.nodes[d].entries[k].inum;
    assert Shape(nodes, d) && Shape(nodes, t);
    ClearShape(nodes, d, k);
    forall j: nat | j < |nodes| ensures Shape(nodes', j) { assert Shape(nodes, j); }
    UnlinkDirNames(s, d, k);
    forall c: nat | c < |nodes| && c != ROOTINO && Linked(nodes'[c]) ensures HasHome(nodes', c) {
      assert HasHome(nodes, c);
      var h :| HomeAt(nodes, c, h);
      assert nodes'[c].entries[1] == nodes[c].entries[1] by { assert Shape(nodes, c); }
      assert HomeAt(nodes', c, h);
    }
  }

  lemma UnlinkDirNames(s: State, d: nat, k: nat)
    requires d < |s.nodes| && Linked(s.nodes[d]) && 2 <= k < |s.nodes[d].entries| && s.nodes[d].entries[k].inum != 0
    requires var t := s.nodes[d].entries[k].inum;
             && t < |s.nodes| && t != d && Linked(s.nodes[t]) && EmptyDir(s.nodes[t].entries)
             && s.nodes[t].nlink == 1 && s.nodes[d].nlink >= 2
    ensures forall e: nat, j: nat, c: nat :: c != 0 ==>
              (NamedAt(UnlinkAt(s, d, k).nodes, e, j, c) <==> NamedAt(s.nodes, e, j, c) && !(e == d && j == k))
    ensures forall c: nat :: c != s.nodes[d].entries[k].inum ==> !NamedAt(s.nodes, d, k, c)
  {
  }

  // ---- create ----

  lemma CreateGood(s: State, d: nat, name: string, kind: Kind, n: nat)
    requires Good(s) && d < |s.nodes| && Linked(s.nodes[d]) && Lookup(s.nodes[d].entries, name) == None && kind != Free
    requires FreeSlot(s.nodes[d].entries) < MAXENTRIES && 0 < n < |s.nodes| && s.nodes[n].kind == Free
    ensures Good(CreateAt(s, d, name, kind, n))
  {
    hide Count, HasHome, DirShape, NamedAt, EmptyDir, Lookup, FreeSlot, Enter;
    var s' := CreateAt(s, d, name, kind, n);
    CreateTree(s, d, name, kind, n);
    CreateCount(s, d, name, kind, n);
    assert Shape(s.nodes, n);
    forall j: nat | j < |s.nodes| ensures Alive(s', j) { assert Alive(s, j); }
  }

  lemma CreateCount(s: State, d: nat, name: string, kind: Kind, n: nat)
    requires d < |s.nodes| == |s.refs| && Linked(s.nodes[d]) && Cut(name) != "." && kind != Free && d != 0
    requires 0 < n < |s.nodes| && s.nodes[n].kind == Free
    ensures forall j :: Count(CreateAt(s, d, name, kind, n).nodes, j)
              == Count(s.nodes, j) + (if j == n then 1 else 0) + if kind == Dir && j == d then 1 else 0
  {
    var parent := s.nodes[d].(nlink := s.nodes[d].nlink + if kind == Dir then 1 else 0);
    var s1 := SetNode(s, d, parent);
    var s2 := SetNode(s1, n, NewNode(kind, n, d));
    EnterCount(s2, d, name, n);
    forall j ensures Count(s2.nodes, j) == Count(s.nodes, j) + if kind == Dir && j == d then 1 else 0 {
      CountSet(s.nodes, d, parent, j);
      CountSet(s1.nodes, n, NewNode(kind, n, d), j);
      DotsCount(n, d, j);
    }
  }

  lemma CreateNames(s: State, d: nat, name: string, kind: Kind, n: nat)
    requires d < |s.nodes| == |s.refs| && Linked(s.nodes[d]) && FreeSlot(s.nodes[d].entries) >= 2
    requires 0 < n < |s.nodes| && s.nodes[n].kind == Free
    ensures forall e: nat, k: nat, c: nat :: c != 0 ==>
              (NamedAt(CreateAt(s, d, name, kind, n).nodes, e, k, c) <==>
                NamedAt(s.nodes, e, k, c) || (e == d && k == FreeSlot(s.nodes[d].entries) && c == n))
  {
  }

  lemma CreateTree(s: State, d: nat, name: string, kind: Kind, n: nat)
    requires Core(s) && d < |s.nodes| && Linked(s.nodes[d]) && Lookup(s.nodes[d].entries, name) == None && kind != Free
    requires FreeSlot(s.nodes[d].entries) < MAXENTRIES && 0 < n < |s.nodes| && s.nodes[n].kind == Free
    ensures Tree(CreateAt(s, d, name, kind, n).nodes) && d != 0 && Cut(name) != "."
  {
    hide NamedAt, UniqueNames, Count;
    var nodes, nodes', slot := s.nodes, CreateAt(s, d, name, kind, n).nodes, FreeSlot(s.nodes[d].entries);
    assert Shape(nodes, d);
    EnterShape(nodes, d, name, n);
    CreateShapes(s, d, name, kind, n);
    CreateNames(s, d, name, kind, n);
    NobodyNames(s, n);
    assert HomeAt(nodes', n, slot) || kind != Dir;
    forall c: nat | c < |nodes| && c != ROOTINO && Linked(nodes'[c]) ensures HasHome(nodes', c) {
      if c != n {
        assert HasHome(nodes, c);
        var h :| HomeAt(nodes, c, h);
        assert nodes'[c].entries[1] == nodes[c].entries[1] by { assert Shape(nodes, c); }
        assert HomeAt(nodes', c, h);
      }
    }
  }

  lemma CreateShapes(s: State, d: nat, name: string, kind: Kind, n: nat)
    requires Core(s) && d < |s.nodes| && Linked(s.nodes[d]) && Lookup(s.nodes[d].entries, name) == None && kind != Free
    requires FreeSlot(s.nodes[d].entries) < MAXENTRIES && 0 < n < |s.nodes| && s.nodes[n].kind == Free
    ensures forall j: nat :: j < |s.nodes| ==> Shape(CreateAt(s, d, name, kind, n).nodes, j)
  {
    hide Count, NamedAt, UniqueNames;
    var nodes, nodes' := s.nodes, CreateAt(s, d, name, kind, n).nodes;
    assert Shape(nodes, d);
    EnterShape(nodes, d, name, n);
    forall j: nat | j < |nodes| ensures Shape(nodes', j) {
      assert Shape(nodes, j);
      if j == n { DotsShape(n, d, |nodes|); }
    }
  }

  lemma DotsCount(n: nat, d: nat, i: nat)
    requires d != 0
    ensures CountIn([Dirent(n, "."), Dirent(d, "..")], i) == if i == d then 1 else 0
  {
    var es := [Dirent(n, "."), Dirent(d, "..")];
    if i == d { CountInOne(es, 1, i); } else { CountInZero(es, i); }
  }

  lemma DotsShape(n: nat, d: nat, size: nat)
    requires 0 < n < size && 0 < d < size
    ensures DirShape([Dirent(n, "."), Dirent(d, "..")], n, size)
  {
  }

  /** No linked directory names a free inode. */
  lemma NobodyNames(s: State, n: nat)
    requires Core(s) && 0 < n < |s.nodes| && s.nodes[n].kind == Free
    ensures forall d: nat, k: nat :: !NamedAt(s.nodes, d, k, n)
  {
    forall d: nat, k: nat ensures !NamedAt(s.nodes, d, k, n) {
      if NamedAt(s.nodes, d, k, n) { NamedIsAllocated(s, d, k); }
    }
  }
}
