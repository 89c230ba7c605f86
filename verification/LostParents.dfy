/** Paths out of a directory that was removed while in use.  Its ".." still holds the number of its
    parent, which may have been freed since; ilock panics on a freed inode. */
module LostParents {
  import opened Common
  import opened Links
  import opened LinkFacts
  import opened LinkRuns
  import opened LinkCalls
  import opened Paths

  // ---- When a lookup panics ----

  /** u steps up from inode i, through removed directories, stands a freed inode. */
  ghost predicate Lost(nodes: seq<Node>, i: nat, u: nat)
    decreases u
  {
    && i < |nodes|
    && if u == 0 then nodes[i].kind == Free
       else && nodes[i].kind == Dir && nodes[i].nlink == 0 && |nodes[i].entries| >= 2
            && Lost(nodes, nodes[i].entries[1].inum, u - 1)
  }

  predicate AllDots(comps: seq<string>) {
    forall j :: 0 <= j < |comps| ==> comps[j] == "." || comps[j] == ".."
  }

  function Ups(comps: seq<string>): nat {
    if comps == [] then 0 else Ups(comps[1..]) + if comps[0] == ".." then 1 else 0
  }

  /** The first k components are "." and "..", and climb from i to a freed inode. */
  ghost predicate ClimbsOut(nodes: seq<Node>, i: nat, comps: seq<string>, k: nat) {
    k <= |comps| && AllDots(comps[..k]) && Lost(nodes, i, Ups(comps[..k]))
  }

  /** The names in a removed directory. */
  lemma RemovedNames(s: State, i: nat, name: string)
    requires Good(s) && i < |s.nodes| && s.nodes[i].kind == Dir && s.nodes[i].nlink == 0
    ensures var es := s.nodes[i].entries;
            && |es| >= 2 && es[1].inum < |s.nodes| && (Names(es, name) <==> name == "." || name == "..")
            && (name == "." ==> es[Lookup(es, name).value].inum == i)
            && (name == ".." ==> es[Lookup(es, name).value].inum == es[1].inum)
  {
    hide Counted, HasHome, Held;
    assert Shape(s.nodes, i) && EmptyDir(s.nodes[i].entries);
    var es := s.nodes[i].entries;
    DotCut(name);
    if name == ".." { assert Lookup(es, name) == Lookup(es, name, 1) == Some(1); }
  }

  lemma DotCut(name: string)
    ensures SameName(name, ".") <==> name == "."
    ensures SameName(name, "..") <==> name == ".."
  {
  }

  /** One component further. */
  lemma ClimbStep(nodes: seq<Node>, i: nat, comps: seq<string>, k: nat)
    requires comps != [] && k <= |comps| && 0 < k
    ensures ClimbsOut(nodes, i, comps, k) <==>
              || (comps[0] == "." && ClimbsOut(nodes, i, comps[1..], k - 1))
              || (&& comps[0] == ".." && i < |nodes| && nodes[i].kind == Dir && nodes[i].nlink == 0
                  && |nodes[i].entries| >= 2 && ClimbsOut(nodes, nodes[i].entries[1].inum, comps[1..], k - 1))
  {
    assert comps[..k][1..] == comps[1..][..k - 1] && comps[..k][0] == comps[0];
    var front, rest := comps[..k], comps[1..][..k - 1];
    assert AllDots(front) <==> (comps[0] == "." || comps[0] == "..") && AllDots(rest) by {
      assert forall j :: 0 <= j < |rest| ==> rest[j] == front[j + 1];
      assert forall j :: 1 <= j < |front| ==> front[j] == rest[j - 1];
    }
  }

  ghost predicate ClimbsOutBefore(nodes: seq<Node>, i: nat, comps: seq<string>, n: nat) {
    exists k: nat :: k < n && ClimbsOut(nodes, i, comps, k)
  }

  lemma ClimbShift(nodes: seq<Node>, i: nat, comps: seq<string>, n: nat)
    requires comps != [] && 0 < n <= |comps| + 1 && i < |nodes| && nodes[i].kind == Dir && nodes[i].nlink == 0
    requires |nodes[i].entries| >= 2
    ensures ClimbsOutBefore(nodes, i, comps, n) <==>
              || (comps[0] == "." && ClimbsOutBefore(nodes, i, comps[1..], n - 1))
              || (comps[0] == ".." && ClimbsOutBefore(nodes, nodes[i].entries[1].inum, comps[1..], n - 1))
  {
    hide ClimbsOut;
    assert !ClimbsOut(nodes, i, comps, 0) by { NotYet(nodes, i, comps); }
    forall k: nat | 0 < k < n ensures ClimbsOut(nodes, i, comps, k) <==>
        || (comps[0] == "." && ClimbsOut(nodes, i, comps[1..], k - 1))
        || (comps[0] == ".." && ClimbsOut(nodes, nodes[i].entries[1].inum, comps[1..], k - 1))
    {
      ClimbStep(nodes, i, comps, k);
    }
    var up := if comps[0] == "." then i else nodes[i].entries[1].inum;
    if k: nat :| k < n && ClimbsOut(nodes, i, comps, k) {
      assert ClimbsOut(nodes, up, comps[1..], k - 1);
    }
    if k: nat :| (comps[0] == "." || comps[0] == "..") && k < n - 1 && ClimbsOut(nodes, up, comps[1..], k) {
      assert ClimbsOut(nodes, i, comps, k + 1);
    }
  }

  lemma NotYet(nodes: seq<Node>, i: nat, comps: seq<string>)
    requires i < |nodes| && nodes[i].kind == Dir
    ensures !ClimbsOut(nodes, i, comps, 0)
  {
  }

  /** A linked inode, or one that is not a directory, is no way out. */
  lemma NoClimb(nodes: seq<Node>, i: nat, comps: seq<string>, k: nat)
    requires i < |nodes| && nodes[i].kind != Free && (nodes[i].kind != Dir || nodes[i].nlink > 0)
    ensures !ClimbsOut(nodes, i, comps, k)
  {
    if k <= |comps| && AllDots(comps[..k]) { assert !Lost(nodes, i, Ups(comps[..k])); }
  }

  lemma ClimbsAtOnce(nodes: seq<Node>, i: nat, comps: seq<string>)
    requires i < |nodes| && nodes[i].kind == Free
    ensures ClimbsOut(nodes, i, comps, 0)
  {
    assert comps[..0] == [];
  }

  /** namex panics exactly when "." and ".." at the front of the path climb through removed
      directories to a freed inode and a component is left, whether it looks for the last component
      or for its directory. */
  lemma {:induction false} LookupPanicsIff(s: State, i: nat, comps: seq<string>, parent: bool)
    requires Good(s) && i < |s.nodes|
    ensures Target(s.nodes, i, comps, parent) == Stuck <==> ClimbsOutBefore(s.nodes, i, comps, |comps|)
    decreases comps
  {
    hide Good, Lookup, Target, ClimbsOut;
    if comps == [] {
      EndOfPath(s.nodes, i, parent);
    } else {
      WalkStep(s.nodes, i, comps, parent);
      if s.nodes[i].kind == Free {
        ClimbsAtOnce(s.nodes, i, comps);
      } else if s.nodes[i].kind != Dir || s.nodes[i].nlink > 0 {
        forall k: nat ensures !ClimbsOut(s.nodes, i, comps, k) { NoClimb(s.nodes, i, comps, k); }
        if s.nodes[i].nlink > 0 { LinkedLookup(s, i, comps, parent); }
      } else {
        NlinkNatural(s, i);
        RemovedNames(s, i, comps[0]);
        ClimbShift(s.nodes, i, comps, |comps|);
        LookupPanicsIff(s, i, comps[1..], parent);
        LookupPanicsIff(s, s.nodes[i].entries[1].inum, comps[1..], parent);
        if parent && |comps| == 1 { LastUp(s.nodes, i, comps); }
      }
    }
  }

  lemma NlinkNatural(s: State, i: nat)
    requires Good(s) && i < |s.nodes|
    ensures s.nodes[i].nlink >= 0
  {
    CountsNatural(s, i);
  }

  lemma LastUp(nodes: seq<Node>, i: nat, comps: seq<string>)
    requires i < |nodes| && nodes[i].kind == Dir && |comps| == 1
    ensures !ClimbsOutBefore(nodes, i, comps, 1)
  {
    NotYet(nodes, i, comps);
  }

  lemma LinkedLookup(s: State, i: nat, comps: seq<string>, parent: bool)
    requires Good(s) && i < |s.nodes| && s.nodes[i].nlink > 0
    ensures Target(s.nodes, i, comps, parent) != Stuck
  {
    hide Good, Walk;
    WalkNeverStuck(s, i, comps);
    if comps != [] { WalkNeverStuck(s, i, comps[..|comps| - 1]); }
  }

  /** What a call that looks up a path and then locks what it found meets: a freed inode, on the way or
      at the end. */
  ghost predicate MeetsFreed(nodes: seq<Node>, i: nat, comps: seq<string>) {
    var r := Walk(nodes, i, comps);
    r == Stuck || (r.At? && r.inum < |nodes| && nodes[r.inum].kind == Free)
  }

  /** open, chdir, link and exec panic exactly when "." and ".." climb to a freed inode, with or
      without a component left. */
  lemma {:induction false} LockPanicsIff(s: State, i: nat, comps: seq<string>)
    requires Good(s) && i < |s.nodes|
    ensures MeetsFreed(s.nodes, i, comps) <==> ClimbsOutBefore(s.nodes, i, comps, |comps| + 1)
    decreases comps
  {
    hide Good, Lookup, ClimbsOut;
    if s.nodes[i].kind == Free {
      ClimbsAtOnce(s.nodes, i, comps);
    } else if s.nodes[i].kind != Dir || s.nodes[i].nlink > 0 {
      forall k: nat ensures !ClimbsOut(s.nodes, i, comps, k) { NoClimb(s.nodes, i, comps, k); }
      if s.nodes[i].nlink > 0 { WalkNeverStuck(s, i, comps); }
    } else if comps == [] {
      NotYet(s.nodes, i, comps);
    } else {
      NlinkNatural(s, i);
      RemovedNames(s, i, comps[0]);
      ClimbShift(s.nodes, i, comps, |comps| + 1);
      LockPanicsIff(s, i, comps[1..]);
      LockPanicsIff(s, s.nodes[i].entries[1].inum, comps[1..]);
    }
  }

  /** create panics exactly when the name is ".." in a removed directory whose parent was freed, or when
      it has to make an inode and the inodes or the directory are full. */
  lemma CreatePanicsIff(s: State, d: nat, name: string, kind: Kind)
    requires Good(s) && HasDir(s, d)
    ensures var es := s.nodes[d].entries; 2 <= |es| && es[1].inum < |s.nodes|
    ensures var es := s.nodes[d].entries;
            CreateOutcome(s, d, name, kind) == Panicked <==>
              || (name == ".." && s.nodes[d].nlink == 0 && s.nodes[es[1].inum].kind == Free)
              || (!Names(es, name) && (Blank(s.nodes) == None || FreeSlot(es) >= MAXENTRIES))
  {
    hide Good, Lookup, FreeSlot, Blank;
    EntriesThere(s, d);
    NlinkNatural(s, d);
    if s.nodes[d].nlink == 0 {
      RemovedNames(s, d, name);
    } else if Names(s.nodes[d].entries, name) {
      LinkedNames(s, d, name);
    }
  }

  lemma EntriesThere(s: State, d: nat)
    requires Good(s) && HasDir(s, d)
    ensures |s.nodes| > 1 && 2 <= |s.nodes[d].entries|
    ensures forall k :: 0 <= k < |s.nodes[d].entries| ==> s.nodes[d].entries[k].inum < |s.nodes|
  {
    hide Counted, HasHome;
    assert Shape(s.nodes, d);
  }

  lemma LinkedNames(s: State, d: nat, name: string)
    requires Good(s) && HasDir(s, d) && Linked(s.nodes[d]) && Names(s.nodes[d].entries, name)
    ensures var es := s.nodes[d].entries;
            var t := es[Lookup(es, name).value].inum;
            t < |s.nodes| && s.nodes[t].kind != Free
  {
    hide Counted, HasHome;
    assert Shape(s.nodes, d);
    var k := Lookup(s.nodes[d].entries, name).value;
    if k > 0 { NamedIsAllocated(s, d, k); }
  }

  // ---- The failing case is reachable ----

  const BDOTS := [Dirent(3, "."), Dirent(2, "..")]

  lemma MakeB()
    ensures Reachable(State([NOBODY, Node(Dir, 2, ROOTDOTS + [Dirent(2, "a")]),
              Node(Dir, 2, SUBDOTS + [Dirent(3, "b")]), Node(Dir, 1, BDOTS)],
                            [0, 0, 0, 1], multiset{}))
  {
    hide Good, Reachable, Put, CreateAt;
    var s := State([NOBODY, Node(Dir, 2, ROOTDOTS + [Dirent(2, "a")]), Node(Dir, 1, SUBDOTS), NOBODY], [0, 0, 1, 0],
      multiset{});
    MakeA();
    assert Lookup(SUBDOTS, "b") == None && FreeSlot(SUBDOTS) == 2;
    assert Blank(s.nodes, 3) == Some(3) && Blank(s.nodes, 2) == Some(3) && Blank(s.nodes) == Some(3);
    assert CreateOutcome(s, 2, "b", Dir) == Done(3);
    ReachStep(s, Make(2, "b", Dir));
    MadeB(s);
  }

  lemma MadeB(s: State)
    requires s == State([NOBODY, Node(Dir, 2, ROOTDOTS + [Dirent(2, "a")]), Node(Dir, 1, SUBDOTS), NOBODY],
               [0, 0, 1, 0], multiset{})
    ensures var c := CreateAt(s, 2, "b", Dir, 3); |c.nodes| == |c.refs| == 4 && c.refs[2] == 1
    ensures Put(CreateAt(s, 2, "b", Dir, 3), 2)
              == State([NOBODY, Node(Dir, 2, ROOTDOTS + [Dirent(2, "a")]), Node(Dir, 2, SUBDOTS + [Dirent(3, "b")]),
                Node(Dir, 1, BDOTS)],
                       [0, 0, 0, 1], multiset{})
  {
    assert FreeSlot(SUBDOTS) == 2;
    var c := CreateAt(s, 2, "b", Dir, 3);
    assert c.nodes == [NOBODY, Node(Dir, 2, ROOTDOTS + [Dirent(2, "a")]), Node(Dir, 2, SUBDOTS + [Dirent(3, "b")]),
      Node(Dir, 1, BDOTS)];
    assert c.refs == [0, 0, 1, 1];
  }

  lemma RemoveB()
    ensures Reachable(State([NOBODY, Node(Dir, 2, ROOTDOTS + [Dirent(2, "a")]), Node(Dir, 1, SUBDOTS + [UNUSED]),
              Node(Dir, 0, BDOTS)],
                            [0, 0, 0, 1], multiset{}))
  {
    hide Good, Reachable, Put, Release, UnlinkAt;
    var es := SUBDOTS + [Dirent(3, "b")];
    var nodes := [NOBODY, Node(Dir, 2, ROOTDOTS + [Dirent(2, "a")]), Node(Dir, 2, es), Node(Dir, 1, BDOTS)];
    var s, s' := State(nodes, [0, 0, 0, 1], multiset{}), State(nodes, [0, 0, 1, 1], multiset{});
    MakeB();
    assert Do(s, Open(2)) == s';
    ReachStep(s, Open(2));
    assert Lookup(es, "b", 2) == Some(2) && Lookup(es, "b", 1) == Some(2);
    assert UnlinkOutcome(s', 2, "b") == Done(3);
    ReachStep(s', Remove(2, "b"));
    RemovedB(s');
  }

  lemma RemovedB(s: State)
    requires s == State([NOBODY, Node(Dir, 2, ROOTDOTS + [Dirent(2, "a")]), Node(Dir, 2, SUBDOTS + [Dirent(3, "b")]),
               Node(Dir, 1, BDOTS)],
                        [0, 0, 1, 1], multiset{})
    ensures var u := UnlinkAt(s, 2, 2); |u.nodes| == |u.refs| == 4 && u.refs[2] == 1
    ensures Release(Put(UnlinkAt(s, 2, 2), 2), 3)
              == State([NOBODY, Node(Dir, 2, ROOTDOTS + [Dirent(2, "a")]), Node(Dir, 1, SUBDOTS + [UNUSED]),
                Node(Dir, 0, BDOTS)],
                       [0, 0, 0, 1], multiset{})
  {
    var u := UnlinkAt(s, 2, 2);
    assert (SUBDOTS + [Dirent(3, "b")])[2 := UNUSED] == SUBDOTS + [UNUSED];
    assert u.nodes == [NOBODY, Node(Dir, 2, ROOTDOTS + [Dirent(2, "a")]), Node(Dir, 1, SUBDOTS + [UNUSED]),
      Node(Dir, 0, BDOTS)];
  }

  ghost function Stranded(): State {
    State([NOBODY, Node(Dir, 1, ROOTDOTS + [UNUSED]), NOBODY, Node(Dir, 0, BDOTS)], [0, 0, 0, 1], multiset{})
  }

  lemma RemoveParent()
    ensures Reachable(Stranded())
  {
    hide Good, Reachable, Put, Release, UnlinkAt;
    var es := ROOTDOTS + [Dirent(2, "a")];
    var nodes := [NOBODY, Node(Dir, 2, es), Node(Dir, 1, SUBDOTS + [UNUSED]), Node(Dir, 0, BDOTS)];
    var s, s' := State(nodes, [0, 0, 0, 1], multiset{}), State(nodes, [0, 1, 0, 1], multiset{});
    RemoveB();
    assert Do(s, Open(1)) == s';
    ReachStep(s, Open(1));
    FindA(es);
    assert UnlinkOutcome(s', 1, "a") == Done(2);
    ReachStep(s', Remove(1, "a"));
    RemovedParent(s');
  }

  lemma RemovedParent(s: State)
    requires s == State([NOBODY, Node(Dir, 2, ROOTDOTS + [Dirent(2, "a")]), Node(Dir, 1, SUBDOTS + [UNUSED]),
               Node(Dir, 0, BDOTS)],
                        [0, 1, 0, 1], multiset{})
    ensures var u := UnlinkAt(s, 1, 2); |u.nodes| == |u.refs| == 4 && u.refs[1] == 1
    ensures Release(Put(UnlinkAt(s, 1, 2), 1), 2) == Stranded()
  {
    var u := UnlinkAt(s, 1, 2);
    assert (ROOTDOTS + [Dirent(2, "a")])[2 := UNUSED] == ROOTDOTS + [UNUSED];
    assert u.nodes == [NOBODY, Node(Dir, 1, ROOTDOTS + [UNUSED]), Node(Dir, 0, SUBDOTS + [UNUSED]),
      Node(Dir, 0, BDOTS)];
    assert u.refs == [0, 1, 0, 1];
    assert Put(u, 1).nodes == u.nodes && Put(u, 1).refs == [0, 0, 0, 1];
  }

  /** mkdir a, mkdir a/b, keep b open, unlink a/b, unlink a: now "../x" and a create of ".." from b panic. */
  lemma StrandedPanics()
    ensures Reachable(Stranded()) && HasDir(Stranded(), 3)
    ensures Target(Stranded().nodes, 3, ["..", "x"], false) == Stuck
    ensures CreateOutcome(Stranded(), 3, "..", File) == Panicked
  {
    hide Reachable;
    RemoveParent();
    assert Lookup(BDOTS, "..", 1) == Some(1) && Lookup(BDOTS, "..") == Some(1);
    assert ["..", "x"][1..] == ["x"];
    assert Walk(Stranded().nodes, 2, ["x"]) == Stuck;
  }
}
