/** Path lookup (fs.c): skipelem cuts a path into its components, namex folds directory lookup
    over them.  A path is the bytes before its terminating NUL. */
module Paths {
  import opened Common
  import opened Links
  import opened LinkFacts
  import opened LinkRuns
  import opened LinkAnswers
  import opened LinkCalls

  // ---- Components ----

  /** The first position from p on that is not a slash. */
  function SkipSlashes(path: string, p: nat): (a: nat)
    requires p <= |path|
    ensures p <= a <= |path| && (a < |path| ==> path[a] != '/') && forall j :: p <= j < a ==> path[j] == '/'
    decreases |path| - p
  {
    if p < |path| && path[p] == '/' then SkipSlashes(path, p + 1) else p
  }

  /** The first slash from a on, or the end. */
  function NextSlash(path: string, a: nat): (b: nat)
    requires a <= |path|
    ensures a <= b <= |path| && (b < |path| ==> path[b] == '/') && forall j :: a <= j < b ==> path[j] != '/'
    decreases |path| - a
  {
    if a < |path| && path[a] != '/' then NextSlash(path, a + 1) else a
  }

  /** Where the elements that repeated skipelem calls return begin and end. */
  ghost function Elements(path: string, p: nat := 0): seq<(nat, nat)>
    requires p <= |path|
    decreases |path| - p
  {
    var a := SkipSlashes(path, p);
    if a == |path| then [] else [(a, NextSlash(path, a))] + Elements(path, NextSlash(path, a))
  }

  ghost function Components(path: string, p: nat := 0): seq<string>
    requires p <= |path|
    decreases |path| - p
  {
    var a := SkipSlashes(path, p);
    if a == |path| then [] else [Cut(path[a..NextSlash(path, a)])] + Components(path, NextSlash(path, a))
  }

  /** A longest stretch of the path without a slash. */
  ghost predicate IsRun(path: string, a: nat, b: nat) {
    && a < b <= |path| && (forall j :: a <= j < b ==> path[j] != '/')
    && (a == 0 || path[a - 1] == '/') && (b == |path| || path[b] == '/')
  }

  /** Where a skipelem call may start: the front, after a slash, at a slash, or the end. */
  ghost predicate Boundary(path: string, p: nat) {
    p <= |path| && (p == 0 || path[p - 1] == '/' || p == |path| || path[p] == '/')
  }

  /** Each element is a longest stretch without a slash, and they come in order. */
  lemma {:induction false} ElementsRuns(path: string, p: nat)
    requires Boundary(path, p)
    ensures forall k :: 0 <= k < |Elements(path, p)| ==>
              IsRun(path, Elements(path, p)[k].0, Elements(path, p)[k].1) && p <= Elements(path, p)[k].0
    ensures forall j, k :: 0 <= j < k < |Elements(path, p)| ==> Elements(path, p)[j].1 < Elements(path, p)[k].0
    decreases |path| - p
  {
    var a := SkipSlashes(path, p);
    if a < |path| {
      var b := NextSlash(path, a);
      ElementsRuns(path, b);
      var rest, es := Elements(path, b), Elements(path, p);
      assert es == [(a, b)] + rest;
      assert IsRun(path, a, b);
      forall k | 0 <= k < |rest| ensures b < rest[k].0 {
        assert IsRun(path, rest[k].0, rest[k].1);
      }
    }
  }

  /** Every longest stretch without a slash is an element. */
  lemma {:induction false} RunsElements(path: string, p: nat, x: nat, y: nat)
    requires Boundary(path, p) && p <= x && IsRun(path, x, y)
    ensures (x, y) in Elements(path, p)
    decreases |path| - p
  {
    var a := SkipSlashes(path, p);
    assert path[x] != '/' && a <= x;
    var b := NextSlash(path, a);
    assert IsRun(path, a, b);
    if x < b { SameRun(path, a, b, x, y); } else { RunsElements(path, b, x, y); }
  }

  /** The elements are exactly the non-empty stretches between slashes, in order. */
  lemma ElementsAreRuns(path: string)
    ensures forall k :: 0 <= k < |Elements(path)| ==> IsRun(path, Elements(path)[k].0, Elements(path)[k].1)
    ensures forall j, k :: 0 <= j < k < |Elements(path)| ==> Elements(path)[j].1 < Elements(path)[k].0
    ensures forall a: nat, b: nat :: IsRun(path, a, b) ==> (a, b) in Elements(path)
  {
    hide IsRun, Elements;
    ElementsRuns(path, 0);
    forall a: nat, b: nat | IsRun(path, a, b) ensures (a, b) in Elements(path) { RunsElements(path, 0, a, b); }
  }

  lemma SameRun(path: string, a: nat, b: nat, x: nat, y: nat)
    requires IsRun(path, a, b) && IsRun(path, x, y) && a <= x < b
    ensures a == x && b == y
  {
  }

  /** Each component is its element, cut to DIRSIZ bytes. */
  lemma {:induction false} ComponentsAreElements(path: string, p: nat)
    requires p <= |path|
    ensures |Components(path, p)| == |Elements(path, p)|
    ensures forall k :: 0 <= k < |Elements(path, p)| ==>
              var (a, b) := Elements(path, p)[k]; a < b <= |path| && Components(path, p)[k] == Cut(path[a..b])
    decreases |path| - p
  {
    hide SkipSlashes, NextSlash, Cut;
    var a := SkipSlashes(path, p);
    if a < |path| {
      var b := NextSlash(path, a);
      ComponentsAreElements(path, b);
      assert Elements(path, p) == [(a, b)] + Elements(path, b);
      assert Components(path, p) == [Cut(path[a..b])] + Components(path, b);
    }
  }

  /** skipelem from position p: where the next element starts, and the element's name. */
  method SkipElem(path: string, p: nat) returns (r: Option<nat>, name: string)
    requires p <= |path|
    ensures r == None <==> Components(path, p) == []
    ensures r.Some? ==> p < r.value <= |path| && Components(path, p) == [name] + Components(path, r.value)
    ensures r.Some? ==> (r.value == |path| <==> Components(path, r.value) == [])
  {
    var q := p;
    name := "";
    while q < |path| && path[q] == '/'
      invariant p <= q <= |path| && SkipSlashes(path, p) == SkipSlashes(path, q)
    {
      q := q + 1;
    }
    if q == |path| {
      return None, "";
    }
    var s := q;
    while q < |path| && path[q] != '/'
      invariant s <= q <= |path| && NextSlash(path, s) == NextSlash(path, q)
    {
      q := q + 1;
    }
    ghost var b := q;
    name := if q - s >= DIRSIZ then path[s..s + DIRSIZ] else path[s..q];
    assert name == Cut(path[s..q]);
    while q < |path| && path[q] == '/'
      invariant b <= q <= |path| && SkipSlashes(path, b) == SkipSlashes(path, q)
    {
      q := q + 1;
    }
    assert Components(path, b) == Components(path, q);
    r := Some(q);
  }

  // ---- Lookup ----

  /** Stuck is ilock's panic on an inode that was freed. */
  datatype Found = At(inum: nat) | NotFound | Stuck

  /** Folding directory lookup over components. */
  ghost function Walk(nodes: seq<Node>, i: nat, comps: seq<string>): Found
    decreases comps
  {
    if comps == [] then At(i)
    else if i >= |nodes| || nodes[i].kind == Free then Stuck
    else if nodes[i].kind != Dir || !Names(nodes[i].entries, comps[0]) then NotFound
    else Walk(nodes, nodes[i].entries[Lookup(nodes[i].entries, comps[0]).value].inum, comps[1..])
  }

  /** The directory that holds the last component. */
  ghost function WalkParent(nodes: seq<Node>, i: nat, comps: seq<string>): Found {
    if comps == [] then NotFound
    else match Walk(nodes, i, comps[..|comps| - 1])
      case At(d) =>
        if d >= |nodes| || nodes[d].kind == Free then Stuck else if nodes[d].kind == Dir then At(d) else NotFound
      case r => r
  }

  ghost function Target(nodes: seq<Node>, i: nat, comps: seq<string>, parent: bool): Found {
    if parent then WalkParent(nodes, i, comps) else Walk(nodes, i, comps)
  }

  /** The cache has no entry for some inode that the walk reaches: the panic of iget. */
  ghost predicate NoSlotOnWay(slots: seq<Slot>, nodes: seq<Node>, i: nat, comps: seq<string>) {
    exists k: nat :: k <= |comps| && NoSlotAt(slots, Walk(nodes, i, comps[..k]))
  }

  ghost predicate NoSlotAt(slots: seq<Slot>, r: Found) {
    r.At? && NoSlotFor(slots, r.inum)
  }

  lemma {:induction false} WalkSnoc(nodes: seq<Node>, i: nat, comps: seq<string>, name: string)
    ensures var r := Walk(nodes, i, comps);
            Walk(nodes, i, comps + [name]) == if r.At? then Walk(nodes, r.inum, [name]) else r
    decreases comps
  {
    hide Lookup;
    if comps == [] {
      assert comps + [name] == [name];
    } else {
      assert (comps + [name])[1..] == comps[1..] + [name];
      if i < |nodes| && nodes[i].kind == Dir && Names(nodes[i].entries, comps[0]) {
        WalkSnoc(nodes, nodes[i].entries[Lookup(nodes[i].entries, comps[0]).value].inum, comps[1..], name);
      }
    }
  }

  lemma WalkOne(nodes: seq<Node>, i: nat, name: string)
    requires i < |nodes| && nodes[i].kind == Dir && Names(nodes[i].entries, name)
    ensures Walk(nodes, i, [name]) == At(nodes[i].entries[Lookup(nodes[i].entries, name).value].inum)
  {
    hide Lookup;
    assert [name][1..] == [];
  }

  /** The walk has come to directory d, which names an inode without a cache entry. */
  lemma StopsOnWay(slots: seq<Slot>, nodes: seq<Node>, i: nat, before: seq<string>, rest: seq<string>, d: nat)
    requires Walk(nodes, i, before) == At(d) && rest != [] && d < |nodes| && nodes[d].kind == Dir
    requires NoSlotToFind(slots, nodes[d].entries, rest[0])
    ensures NoSlotOnWay(slots, nodes, i, before + rest)
  {
    hide Walk, NoSlotFor, Lookup;
    WalkSnoc(nodes, i, before, rest[0]);
    WalkOne(nodes, d, rest[0]);
    assert (before + rest)[..|before| + 1] == before + [rest[0]];
    assert NoSlotAt(slots, Walk(nodes, i, (before + rest)[..|before| + 1]));
  }

  lemma StopsAtOnce(slots: seq<Slot>, nodes: seq<Node>, i: nat, comps: seq<string>)
    requires NoSlotFor(slots, i)
    ensures NoSlotOnWay(slots, nodes, i, comps)
  {
    assert comps[..0] == [] && NoSlotAt(slots, Walk(nodes, i, comps[..0]));
  }

  // ---- What the fold reaches ----

  /** inums[0], inums[1], ... are directories, each naming the next by the component between them. */
  ghost predicate Chain(nodes: seq<Node>, inums: seq<nat>, comps: seq<string>) {
    && |inums| == |comps| + 1
    && forall k :: 0 <= k < |comps| ==> Link(nodes, inums[k], comps[k], inums[k + 1])
  }

  ghost predicate Link(nodes: seq<Node>, d: nat, name: string, i: nat) {
    d < |nodes| && nodes[d].kind == Dir && FoundIn(nodes[d].entries, name, i)
  }

  ghost predicate Leads(nodes: seq<Node>, i: nat, comps: seq<string>, j: nat) {
    exists inums: seq<nat> :: Chain(nodes, inums, comps) && inums[0] == i && inums[|comps|] == j
  }

  lemma OneLink(s: State, d: nat, name: string)
    requires Good(s) && d < |s.nodes| && s.nodes[d].kind == Dir
    ensures var es := s.nodes[d].entries;
            && (forall i: nat :: Link(s.nodes, d, name, i) <==> Names(es, name) && i == es[Lookup(es, name).value].inum)
            && (Names(es, name) ==> es[Lookup(es, name).value].inum < |s.nodes|)
  {
    hide Counted, HasHome, Lookup, FoundIn;
    assert Shape(s.nodes, d);
    LookupFinds(s.nodes[d].entries, name);
    if Names(s.nodes[d].entries, name) { EntryThere(s, d, Lookup(s.nodes[d].entries, name).value); }
  }

  /** namei answers j exactly when the components lead from directory to directory and to j at last. */
  lemma {:induction false} WalkLeads(s: State, i: nat, comps: seq<string>, j: nat)
    requires Good(s) && i < |s.nodes|
    ensures Walk(s.nodes, i, comps) == At(j) <==> Leads(s.nodes, i, comps, j)
    decreases comps
  {
    hide Good, Lookup, Link;
    if comps == [] {
      if i == j { assert Chain(s.nodes, [i], comps); }
    } else {
      if s.nodes[i].kind == Dir { OneLink(s, i, comps[0]); }
      if t: nat :| Link(s.nodes, i, comps[0], t) {
        WalkTail(s, i, comps, t, j);
      } else {
        NoWay(s, i, comps, j);
      }
    }
  }

  lemma NoWay(s: State, i: nat, comps: seq<string>, j: nat)
    requires Good(s) && i < |s.nodes| && comps != [] && forall t: nat :: !Link(s.nodes, i, comps[0], t)
    ensures !Leads(s.nodes, i, comps, j) && !Walk(s.nodes, i, comps).At?
  {
    hide Good, Lookup;
    if s.nodes[i].kind == Dir {
      var es := s.nodes[i].entries;
      OneLink(s, i, comps[0]);
      assert Names(es, comps[0]) ==> Link(s.nodes, i, comps[0], es[Lookup(es, comps[0]).value].inum);
    }
    forall inums: seq<nat> | Chain(s.nodes, inums, comps) ensures inums[0] != i {
      assert Link(s.nodes, inums[0], comps[0], inums[0 + 1]);
    }
  }

  lemma {:induction false} WalkTail(s: State, i: nat, comps: seq<string>, t: nat, j: nat)
    requires Good(s) && i < |s.nodes| && comps != [] && Link(s.nodes, i, comps[0], t)
    ensures Walk(s.nodes, i, comps) == At(j) <==> Leads(s.nodes, i, comps, j)
    decreases comps, 0
  {
    hide Good, Lookup, FoundIn;
    OneLink(s, i, comps[0]);
    WalkLeads(s, t, comps[1..], j);
    if inums: seq<nat> :| Chain(s.nodes, inums, comps[1..]) && inums[0] == t && inums[|comps| - 1] == j {
      var all := [i] + inums;
      assert forall k :: 0 <= k < |comps| ==> Link(s.nodes, all[k], comps[k], all[k + 1]) by {
        forall k | 0 < k < |comps| ensures Link(s.nodes, all[k], comps[k], all[k + 1]) {
          assert Link(s.nodes, inums[k - 1], comps[1..][k - 1], inums[k - 1 + 1]);
        }
      }
      assert Chain(s.nodes, all, comps) && all[0] == i && all[|comps|] == j;
    }
    if inums: seq<nat> :| Chain(s.nodes, inums, comps) && inums[0] == i && inums[|comps|] == j {
      assert Link(s.nodes, inums[0], comps[0], inums[0 + 1]);
      forall k | 0 <= k < |comps| - 1 ensures Link(s.nodes, inums[1..][k], comps[1..][k], inums[1..][k + 1]) {
        assert Link(s.nodes, inums[k + 1], comps[k + 1], inums[k + 1 + 1]);
      }
      assert Chain(s.nodes, inums[1..], comps[1..]);
    }
  }

  /** nameiparent answers d exactly when all components but the last lead to d, a directory. */
  lemma ParentLeads(s: State, i: nat, comps: seq<string>, d: nat)
    requires Good(s) && i < |s.nodes|
    ensures WalkParent(s.nodes, i, comps) == At(d) <==>
              && comps != [] && Leads(s.nodes, i, comps[..|comps| - 1], d)
              && d < |s.nodes| && s.nodes[d].kind == Dir
  {
    hide Good, Leads, Walk;
    if comps != [] {
      var front := comps[..|comps| - 1];
      WalkLeads(s, i, front, d);
      assert WalkParent(s.nodes, i, comps).At? ==> Walk(s.nodes, i, front) == WalkParent(s.nodes, i, comps);
    }
  }

  /** One turn of namex's loop. */
  lemma WalkStep(nodes: seq<Node>, i: nat, comps: seq<string>, parent: bool)
    requires comps != []
    ensures i >= |nodes| || nodes[i].kind == Free ==> Target(nodes, i, comps, parent) == Stuck
    ensures i < |nodes| && nodes[i].kind != Free && nodes[i].kind != Dir ==> Target(nodes, i, comps, parent) == NotFound
    ensures i < |nodes| && nodes[i].kind == Dir && parent && |comps| == 1 ==> Target(nodes, i, comps, parent) == At(i)
    ensures i < |nodes| && nodes[i].kind == Dir && !(parent && |comps| == 1) ==>
              Target(nodes, i, comps, parent)
              == if !Names(nodes[i].entries, comps[0]) then NotFound
                 else Target(nodes, nodes[i].entries[Lookup(nodes[i].entries, comps[0]).value].inum, comps[1..], parent)
  {
    hide Lookup;
    if parent && |comps| > 1 {
      var front := comps[..|comps| - 1];
      assert front[0] == comps[0] && front[1..] == comps[1..][..|comps[1..]| - 1];
    }
  }

  /** Moving the reference from one inode to the next. */
  lemma MoveRef(s: State, i: nat, t: nat)
    requires Good(s) && i < |s.nodes| && t < |s.nodes|
    ensures Put(Get(Get(s, i), t), i) == Get(s, t)
  {
    hide Tree, Counted;
    assert Alive(s, i);
    if s.nodes[i].kind == Free { FreeIsNobody(s, i); }
    var g := Get(s, t);
    assert Get(Get(s, i), t).refs == Get(g, i).refs;
    assert Get(g, i).refs[i := g.refs[i]] == g.refs;
  }

  lemma RootThere(s: State)
    requires Good(s)
    ensures ROOTINO < |s.nodes| == |s.refs|
  {
  }

  lemma EntryThere(s: State, d: nat, k: nat)
    requires Good(s) && d < |s.nodes| && s.nodes[d].kind == Dir && k < |s.nodes[d].entries|
    ensures s.nodes[d].entries[k].inum < |s.nodes|
  {
    hide Counted;
    assert Shape(s.nodes, d);
  }

  lemma NoStep(nodes: seq<Node>, i: nat)
    ensures Walk(nodes, i, []) == At(i)
  {
  }

  lemma EndOfPath(nodes: seq<Node>, i: nat, parent: bool)
    ensures Target(nodes, i, [], parent) == if parent then NotFound else At(i)
  {
  }

  /** The step of namex from a directory to the inode that it names: the one reference moves on. */
  method Descend(ino: Inodes, ghost s: State, ip: nat, name: string) returns (r: Found, next: nat)
    requires Good(s) && ino.Cached() && ino.DirRef(ip) && ino.nodes == s.nodes
    requires ino.Abs() == Get(s, ino.slots[ip].inum)
    modifies ino
    ensures ino.nodes == s.nodes
    ensures r == Stuck ==> NoSlotToFind(ino.slots, s.nodes[old(ino.slots[ip].inum)].entries, name)
    ensures r == NotFound ==> !Names(s.nodes[old(ino.slots[ip].inum)].entries, name) && ino.Cached() && ino.Abs() == s
    ensures r.At? ==> var es := s.nodes[old(ino.slots[ip].inum)].entries;
              && Names(es, name) && r.inum == es[Lookup(es, name).value].inum < |s.nodes| && ino.Cached()
              && next < NINODE && ino.slots[next].inum == r.inum && ino.slots[next].ref > 0
              && ino.Abs() == Get(s, r.inum)
  {
    hide Good, Refs, RefOf, Unique, Put, Lookup;
    var d := ino.slots[ip].inum;
    GetPutGood(s, d);
    next := ip;
    var k := ino.FindName(d, name);
    if k == None {
      ino.Iput(ip);
      return NotFound, ip;
    }
    EntryThere(s, d, k.value);
    var t := ino.nodes[d].entries[k.value].inum;
    MoveRef(s, d, t);
    SizesOf(s, d);
    var got := ino.Iget(t);
    if got == None {
      return Stuck, ip;
    }
    ino.Iput(ip);
    return At(t), got.value;
  }

  lemma SizesOf(s: State, d: nat)
    requires Good(s)
    ensures |s.refs| == |s.nodes| && Get(s, 0).nodes == s.nodes
  {
  }

  /** namex's loop, holding one reference of its own, to the inode it starts from. */
  method Follow(ino: Inodes, ghost s: State, path: string, parent: bool, from: nat)
    returns (r: Found, ip: nat, name: string)
    requires Good(s) && ino.Cached() && from < NINODE && ino.slots[from].ref > 0 && ino.nodes == s.nodes
    requires |s.refs| == |s.nodes| && ino.Abs() == Get(s, ino.slots[from].inum)
    modifies ino
    ensures var target := Target(s.nodes, old(ino.slots[from].inum), Components(path), parent);
            && (r != Stuck ==> r == target)
            && (r == Stuck ==>
                  target == Stuck || NoSlotOnWay(ino.slots, s.nodes, old(ino.slots[from].inum), Components(path)))
    ensures ino.nodes == s.nodes && (r == NotFound ==> ino.Cached() && ino.Abs() == s)
    ensures r.At? ==>
              r.inum < |s.nodes| && ino.Cached() && ip < NINODE && ino.slots[ip].inum == r.inum && ino.slots[ip].ref > 0
    ensures r.At? ==> ino.Abs() == Get(s, r.inum)
    ensures r.At? && parent ==> Components(path) != [] && name == Components(path)[|Components(path)| - 1]
  {
    hide Good, Refs, RefOf, Unique, Put, Lookup, Components, Walk, WalkParent, Target, NoSlotOnWay, NoSlotFor;
    name := "";
    ip := from;
    var p := 0;
    ghost var comps, before, start := Components(path), [], ino.slots[from].inum;
    assert Walk(s.nodes, start, before) == At(start) by { NoStep(s.nodes, start); }
    ghost var target := Target(s.nodes, ino.slots[from].inum, comps, parent);
    while true
      invariant p <= |path| && ino.Cached() && ino.nodes == s.nodes && ip < NINODE && ino.slots[ip].ref > 0
      invariant ino.Abs() == Get(s, ino.slots[ip].inum)
      invariant Target(s.nodes, ino.slots[ip].inum, Components(path, p), parent) == target
      invariant comps == before + Components(path, p)
      invariant Walk(s.nodes, start, before) == At(ino.slots[ip].inum)
      decreases |path| - p
    {
      var q, elem := SkipElem(path, p);
      var i := ino.slots[ip].inum;
      if q == None {
        break;
      }
      name := elem;
      WalkStep(s.nodes, i, Components(path, p), parent);
      if ino.nodes[i].kind == Free {
        return Stuck, ip, name;
      }
      if ino.nodes[i].kind != Dir {
        GiveBack(ino, s, ip);
        return NotFound, ip, name;
      }
      if parent && q.value == |path| {
        assert comps == before + [name];
        return At(i), ip, name;
      }
      var down, next := Descend(ino, s, ip, name);
      if !down.At? {
        if down == Stuck { StopsOnWay(ino.slots, s.nodes, start, before, Components(path, p), i); }
        return down, ip, name;
      }
      WalkSnoc(s.nodes, start, before, name);
      WalkOne(s.nodes, i, name);
      before := before + [name];
      ip, p := next, q.value;
    }
    EndOfPath(s.nodes, ino.slots[ip].inum, parent);
    if parent {
      GiveBack(ino, s, ip);
      return NotFound, ip, name;
    }
    return At(ino.slots[ip].inum), ip, name;
  }

  /** iunlockput on the way out. */
  method GiveBack(ino: Inodes, ghost s: State, ip: nat)
    requires Good(s) && ino.Cached() && ip < NINODE && ino.slots[ip].ref > 0 && ino.nodes == s.nodes
    requires |s.refs| == |s.nodes| && ino.Abs() == Get(s, ino.slots[ip].inum)
    modifies ino
    ensures ino.Cached() && ino.Abs() == s && ino.nodes == s.nodes
  {
    hide Good, Refs, Unique, Put;
    GetPutGood(s, ino.slots[ip].inum);
    ino.Iput(ip);
  }

  /** namex.  On success the caller holds one more reference, to the target; on failure none.
      The panics are a full inode cache and a path through a removed directory's freed parent. */
  method NameX(ino: Inodes, path: string, parent: bool, cwd: nat) returns (r: Found, ip: nat, name: string)
    requires ino.Valid() && ino.DirRef(cwd)
    modifies ino
    ensures var start := if path != "" && path[0] == '/' then ROOTINO else old(ino.slots[cwd].inum);
            var target := Target(old(ino.nodes), start, Components(path), parent);
            && (r != Stuck ==> r == target)
            && (r == Stuck ==> target == Stuck || NoSlotOnWay(ino.slots, ino.nodes, start, Components(path)))
    ensures ino.nodes == old(ino.nodes)
    ensures r == NotFound ==> ino.Valid() && ino.Abs() == old(ino.Abs())
    ensures r.At? ==>
              && r.inum < |ino.nodes| && ino.Cached() && ip < NINODE
              && ino.slots[ip].inum == r.inum && ino.slots[ip].ref > 0
    ensures r.At? ==> ino.Abs() == Get(old(ino.Abs()), r.inum)
    ensures r.At? && parent ==> Components(path) != [] && name == Components(path)[|Components(path)| - 1]
  {
    hide Good, Refs, Unique, Components, Target, NoSlotOnWay, NoSlotFor;
    ghost var s := ino.Abs();
    RootThere(s);
    var start := if path != "" && path[0] == '/' then ROOTINO else ino.slots[cwd].inum;
    var got := ino.Iget(start);
    if got == None {
      StopsAtOnce(ino.slots, ino.nodes, start, Components(path));
      return Stuck, 0, "";
    }
    r, ip, name := Follow(ino, s, path, parent, got.value);
  }

  /** From a linked directory no path runs into a freed inode, and what it reaches is allocated. */
  lemma {:induction false} WalkNeverStuck(s: State, i: nat, comps: seq<string>)
    requires Good(s) && i < |s.nodes| && s.nodes[i].nlink > 0
    ensures var r := Walk(s.nodes, i, comps);
            r != Stuck && (r.At? ==> r.inum < |s.nodes| && s.nodes[r.inum].nlink > 0 && s.nodes[r.inum].kind != Free)
    decreases comps
  {
    hide Counted, Held, HasHome, Lookup;
    assert Shape(s.nodes, i);
    if comps != [] && s.nodes[i].kind == Dir && Names(s.nodes[i].entries, comps[0]) {
      var es := s.nodes[i].entries;
      var k := Lookup(es, comps[0]).value;
      LookupUsed(es, comps[0]);
      if k > 0 { NamedIsAllocated(s, i, k); }
      WalkNeverStuck(s, es[k].inum, comps[1..]);
    }
  }

  lemma LookupUsed(es: seq<Dirent>, name: string)
    requires Names(es, name)
    ensures Lookup(es, name).value < |es| && es[Lookup(es, name).value].inum != 0
  {
  }
}
