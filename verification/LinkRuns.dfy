/** The calls of sysfile.c over whole runs: link counts stay exact as long as new names go into
    directories that are still linked, and only then. */
module LinkRuns {
  import opened Common
  import opened Links
  import opened LinkFacts

  datatype Outcome = Done(inum: nat) | Failed | Panicked

  /** A reference to an allocated directory, as nameiparent returns it. */
  ghost predicate HasDir(s: State, d: nat) {
    d < |s.nodes| == |s.refs| && s.nodes[d].kind == Dir && s.refs[d] > 0
  }

  ghost predicate HasFile(s: State, i: nat) {
    i < |s.nodes| == |s.refs| && s.pending[i] > 0 && s.refs[i] > 0 && s.nodes[i].kind != Dir
  }

  predicate Names(es: seq<Dirent>, name: string) {
    Lookup(es, name).Some?
  }

  /** The second half of sys_link: dp is nameiparent's answer. */
  ghost function LinkOutcome(s: State, dp: Option<nat>, name: string, sameDev: bool): Outcome
    requires dp.Some? ==> HasDir(s, dp.value)
  {
    if dp == None || !sameDev || Names(s.nodes[dp.value].entries, name) then Failed
    else if FreeSlot(s.nodes[dp.value].entries) >= MAXENTRIES then Panicked else Done(0)
  }

  ghost function LinkEnd(s: State, i: nat, dp: Option<nat>, name: string, sameDev: bool): State
    requires HasFile(s, i) && (dp.Some? ==> HasDir(s, dp.value))
  {
    if dp == None then LinkFail(s, i)
    else match LinkOutcome(s, dp, name, sameDev)
      case Failed => LinkFail(Put(s, dp.value), i)
      case Panicked => s
      case Done(_) => Put(Put(LinkEnter(s, i, dp.value, name), dp.value), i)
  }

  ghost function UnlinkOutcome(s: State, d: nat, name: string): Outcome
    requires HasDir(s, d)
  {
    var es := s.nodes[d].entries;
    if SameName(name, ".") || SameName(name, "..") || !Names(es, name) then Failed
    else var t := es[Lookup(es, name).value].inum;
      if t >= |s.nodes| || s.nodes[t].kind == Free || s.nodes[t].nlink < 1 then Panicked
      else if s.nodes[t].kind == Dir && !EmptyDir(s.nodes[t].entries) then Failed else Done(t)
  }

  ghost function Unlink(s: State, d: nat, name: string): State
    requires HasDir(s, d)
  {
    match UnlinkOutcome(s, d, name)
    case Failed => Put(s, d)
    case Panicked => s
    case Done(t) => Release(Put(UnlinkAt(s, d, Lookup(s.nodes[d].entries, name).value), d), t)
  }

  ghost function CreateOutcome(s: State, d: nat, name: string, kind: Kind): Outcome
    requires HasDir(s, d)
  {
    var es := s.nodes[d].entries;
    if Names(es, name) then
      var t := es[Lookup(es, name).value].inum;
      if t >= |s.nodes| || s.nodes[t].kind == Free then Panicked
      else if kind == File && s.nodes[t].kind == File then Done(t) else Failed
    else if |s.nodes| < 1 || Blank(s.nodes) == None || FreeSlot(es) >= MAXENTRIES then Panicked
    else Done(Blank(s.nodes).value)
  }

  ghost function Create(s: State, d: nat, name: string, kind: Kind): State
    requires HasDir(s, d)
  {
    match CreateOutcome(s, d, name, kind)
    case Failed => Put(s, d)
    case Panicked => s
    case Done(n) => if Names(s.nodes[d].entries, name) then Put(Get(s, n), d) else Put(CreateAt(s, d, name, kind, n), d)
  }

  // ---- Every call keeps the counts ----

  lemma LinkEndGood(s: State, i: nat, dp: Option<nat>, name: string, sameDev: bool)
    requires Good(s) && HasFile(s, i) && (dp.Some? ==> HasDir(s, dp.value))
    requires LinkOutcome(s, dp, name, sameDev).Done? ==> Linked(s.nodes[dp.value])
    ensures Good(LinkEnd(s, i, dp, name, sameDev))
  {
    hide Good, Lookup, FreeSlot, Enter;
    PendingLess(s);
    if dp == None {
      LinkFailGood(s, i);
    } else if LinkOutcome(s, dp, name, sameDev).Failed? {
      PutGood(s, dp.value);
      PutOther(s, dp.value, i);
      LinkFailGood(Put(s, dp.value), i);
    } else if LinkOutcome(s, dp, name, sameDev).Done? {
      LinkEnterGood(s, i, dp.value, name);
      var s1 := LinkEnter(s, i, dp.value, name);
      PutGood(s1, dp.value);
      PutOther(s1, dp.value, i);
      PutGood(Put(s1, dp.value), i);
    }
  }

  lemma PendingLess(s: State)
    requires Good(s)
    ensures forall i: nat :: HasDir(s, i) ==> s.pending[i] == 0
    ensures forall i: nat :: HasFile(s, i) ==> s.pending[i] <= s.refs[i]
  {
    hide Tree, Counted;
  }

  lemma PutOther(s: State, d: nat, i: nat)
    requires d < |s.nodes| == |s.refs| && s.refs[d] > 0 && i < |s.nodes| && i != d
    ensures var p := Put(s, d);
            && |p.nodes| == |p.refs| == |s.nodes| && p.nodes[i] == s.nodes[i]
            && p.refs[i] == s.refs[i] && p.pending == s.pending
  {
  }

  /** A name other than "." and ".." is in a later slot of a linked directory. */
  lemma FoundName(s: State, d: nat, name: string)
    requires Good(s) && HasDir(s, d) && Names(s.nodes[d].entries, name) && !SameName(name, ".") && !SameName(name, "..")
    ensures var k := Lookup(s.nodes[d].entries, name).value;
            && k >= 2 && Linked(s.nodes[d]) && s.nodes[d].entries[k].inum < |s.nodes|
            && s.nodes[s.nodes[d].entries[k].inum].kind != Free && s.nodes[s.nodes[d].entries[k].inum].nlink >= 1
  {
    hide Counted, HasHome;
    assert Shape(s.nodes, d);
    var k := Lookup(s.nodes[d].entries, name).value;
    assert s.nodes[d].nlink >= 0 by { CountsNatural(s, d); }
    NamedIsAllocated(s, d, k);
  }

  lemma CountsNatural(s: State, d: nat)
    requires Counted(s) && d < |s.nodes|
    ensures s.nodes[d].nlink >= 0
  {
  }

  /** unlink keeps the counts, whatever the directory, and never meets its "nlink < 1" panic. */
  lemma UnlinkGood(s: State, d: nat, name: string)
    requires Good(s) && HasDir(s, d)
    ensures Good(Unlink(s, d, name)) && UnlinkOutcome(s, d, name) != Panicked
  {
    hide Good, Core, Lookup, EmptyDir, Linked, AddLinks, ClearAt, Alive;
    PendingLess(s);
    PutGood(s, d);
    if !UnlinkOutcome(s, d, name).Failed? {
      FoundName(s, d, name);
      var k := Lookup(s.nodes[d].entries, name).value;
      var t := s.nodes[d].entries[k].inum;
      if s.nodes[t].kind == Dir { UnlinkDirCore(s, d, k); } else { UnlinkFileCore(s, d, k); }
      UnlinkRefs(s, d, k);
      var s1 := UnlinkAt(s, d, k);
      PutCore(s1, d);
      ReleaseCore(Put(s1, d), t);
      assert Good(Release(Put(s1, d), t)) by { AliveAll(s1, d, t); }
    }
  }

  lemma UnlinkRefs(s: State, d: nat, k: nat)
    requires d < |s.nodes| && k < |s.nodes[d].entries| && s.nodes[d].entries[k].inum < |s.nodes|
    ensures UnlinkAt(s, d, k).refs == s.refs && UnlinkAt(s, d, k).pending == s.pending
    ensures |UnlinkAt(s, d, k).nodes| == |s.nodes|
  {
  }

  lemma AliveAll(s: State, d: nat, t: nat)
    requires d < |s.nodes| == |s.refs| && s.refs[d] > s.pending[d] && t < |s.nodes| && Core(s)
    requires forall j: nat :: j < |s.nodes| && j != t ==> Alive(s, j)
    ensures Good(Release(Put(s, d), t))
  {
    hide Core, Alive;
    PutCore(s, d);
    ReleaseCore(Put(s, d), t);
  }

  lemma CreateCallGood(s: State, d: nat, name: string, kind: Kind)
    requires Good(s) && HasDir(s, d) && kind != Free
    requires CreateOutcome(s, d, name, kind).Done? && !Names(s.nodes[d].entries, name) ==> Linked(s.nodes[d])
    ensures Good(Create(s, d, name, kind))
  {
    hide Good, Core, Lookup, FreeSlot, Enter, Linked, Blank;
    PendingLess(s);
    PutGood(s, d);
    if CreateOutcome(s, d, name, kind).Done? {
      var n := CreateOutcome(s, d, name, kind).inum;
      if Names(s.nodes[d].entries, name) {
        GetGood(s, n);
        PutGood(Get(s, n), d);
      } else {
        CreateGood(s, d, name, kind, n);
        PutGood(CreateAt(s, d, name, kind, n), d);
      }
    }
  }

  // ---- Names in a directory that is no longer linked ----

  /** create keeps the counts exactly when the parent it adds a name to still has a link. */
  lemma CreateIffLinked(s: State, d: nat, name: string, kind: Kind)
    requires Good(s) && HasDir(s, d) && kind != Free
    requires CreateOutcome(s, d, name, kind).Done? && !Names(s.nodes[d].entries, name)
    ensures Good(Create(s, d, name, kind)) <==> Linked(s.nodes[d])
  {
    hide Lookup, FreeSlot, Enter, Blank, Put, CreateAt, Good;
    if Linked(s.nodes[d]) {
      CreateCallGood(s, d, name, kind);
    } else {
      PendingLess(s);
      var n := CreateOutcome(s, d, name, kind).inum;
      if kind == Dir { OrphanDir(s, d, name, n); } else { OrphanFile(s, d, name, kind, n); }
    }
  }

  lemma OrphanFile(s: State, d: nat, name: string, kind: Kind, n: nat)
    requires Good(s) && HasDir(s, d) && !Linked(s.nodes[d]) && 0 < n < |s.nodes| && s.nodes[n].kind == Free
    requires kind != Dir && kind != Free
    ensures var c := CreateAt(s, d, name, kind, n); c.refs[d] > 0 && !Good(Put(c, d))
  {
    hide Tree, FreeSlot, Enter;
    var c := CreateAt(s, d, name, kind, n);
    assert s.nodes[n].nlink == 0 by { NoLinks(s, n); }
    CreateUnlinkedCount(s, d, name, kind, n);
    PutCount(c, d, n);
    assert Put(c, d).nodes[n].nlink == 1 && Put(c, d).pending[n] == 0;
  }

  lemma NoLinks(s: State, n: nat)
    requires Good(s) && n < |s.nodes| && s.nodes[n].kind == Free
    ensures s.nodes[n].nlink == 0
  {
    assert Shape(s.nodes, n);
  }

  lemma PutCount(s: State, d: nat, i: nat)
    requires d < |s.nodes| == |s.refs| && s.refs[d] > 0
    ensures Count(Put(s, d).nodes, i) == Count(s.nodes, i)
  {
    CountSet(s.nodes, d, NOBODY, i);
  }

  lemma CreateUnlinkedCount(s: State, d: nat, name: string, kind: Kind, n: nat)
    requires d < |s.nodes| == |s.refs| && s.nodes[d].kind == Dir && !Linked(s.nodes[d]) && n < |s.nodes|
    requires s.nodes[n].kind == Free && kind != Dir
    ensures Count(CreateAt(s, d, name, kind, n).nodes, n) == Count(s.nodes, n)
  {
    hide FreeSlot, Enter;
    var c := CreateAt(s, d, name, kind, n);
    var mid := s.nodes[n := NewNode(kind, n, d)];
    CountSet(s.nodes, n, NewNode(kind, n, d), n);
    CountSet(mid, d, c.nodes[d], n);
    assert c.nodes == mid[d := c.nodes[d]];
  }

  /** mkdir there gives the lost directory a link again, from a child, but no name. */
  lemma OrphanDir(s: State, d: nat, name: string, n: nat)
    requires Good(s) && HasDir(s, d) && !Linked(s.nodes[d]) && 0 < n < |s.nodes| && s.nodes[n].kind == Free
    ensures var c := CreateAt(s, d, name, Dir, n); c.refs[d] > 0 && !Good(Put(c, d))
  {
    hide CountIn, FreeSlot, Counted;
    var c := CreateAt(s, d, name, Dir, n);
    var nodes' := Put(c, d).nodes;
    CountsNatural(s, d);
    assert Shape(s.nodes, d) && EmptyDir(s.nodes[d].entries);
    assert Linked(nodes'[d]) && d != ROOTINO;
    forall e: nat, k: nat ensures !NamedAt(nodes', e, k, d) {
      if NamedAt(s.nodes, e, k, d) { NamedIsAllocated(s, e, k); }
    }
  }

  /** link keeps the counts exactly when the directory it enters the name in still has a link. */
  lemma LinkIffLinked(s: State, i: nat, dp: Option<nat>, name: string, sameDev: bool)
    requires Good(s) && HasFile(s, i) && (dp.Some? ==> HasDir(s, dp.value)) && LinkOutcome(s, dp, name, sameDev).Done?
    ensures Good(LinkEnd(s, i, dp, name, sameDev)) <==> Linked(s.nodes[dp.value])
  {
    hide Lookup, FreeSlot, Enter, Put, Tree;
    if Linked(s.nodes[dp.value]) {
      LinkEndGood(s, i, dp, name, sameDev);
    } else {
      var d, s1 := dp.value, LinkEnter(s, i, dp.value, name);
      CountSet(s.nodes, d, s1.nodes[d], i);
      PutCount(s1, d, i);
      PutOther(s1, d, i);
      PutCount(Put(s1, d), i, i);
      KeptLinks(Put(s1, d), i);
    }
  }

  lemma KeptLinks(s: State, i: nat)
    requires i < |s.nodes| == |s.refs| && s.refs[i] > 0 && s.nodes[i].nlink > 0
    ensures |Put(s, i).nodes| == |s.nodes| && Put(s, i).nodes[i] == s.nodes[i] && Put(s, i).pending == s.pending
  {
  }

  // ---- Runs ----

  /** Open and Close stand for every reference taken by path lookup, open, chdir, and given back. */
  datatype Action =
    | Open(i: nat)
    | Close(i: nat)
    | LinkStart(i: nat)
    | LinkFinish(i: nat, dp: Option<nat>, name: string, sameDev: bool)
    | Remove(d: nat, name: string)
    | Make(d: nat, name: string, kind: Kind)

  ghost predicate Enabled(s: State, a: Action) {
    |s.nodes| == |s.refs| &&
    match a
    case Open(i) => i < |s.nodes| && s.nodes[i].kind != Free
    case Close(i) => i < |s.nodes| && s.refs[i] > s.pending[i]
    case LinkStart(i) => i < |s.nodes| && s.refs[i] > s.pending[i]
    case LinkFinish(i, dp, name, sameDev) =>
      HasFile(s, i) && (dp.Some? ==> HasDir(s, dp.value)) && LinkOutcome(s, dp, name, sameDev) != Panicked
    case Remove(d, name) => HasDir(s, d)
    case Make(d, name, kind) => HasDir(s, d) && kind != Free && CreateOutcome(s, d, name, kind) != Panicked
  }

  ghost function Do(s: State, a: Action): State
    requires Enabled(s, a)
  {
    match a
    case Open(i) => Get(s, i)
    case Close(i) => Put(s, i)
    case LinkStart(i) => LinkBegin(s, i)
    case LinkFinish(i, dp, name, sameDev) => LinkEnd(s, i, dp, name, sameDev)
    case Remove(d, name) => Unlink(s, d, name)
    case Make(d, name, kind) => Create(s, d, name, kind)
  }

  /** If the step adds a name, it adds it to a directory that is still linked. */
  ghost predicate IntoLinked(s: State, a: Action)
    requires Enabled(s, a)
  {
    match a
    case LinkFinish(i, dp, name, sameDev) => LinkOutcome(s, dp, name, sameDev).Done? ==> Linked(s.nodes[dp.value])
    case Make(d, name, kind) =>
      CreateOutcome(s, d, name, kind).Done? && !Names(s.nodes[d].entries, name) ==> Linked(s.nodes[d])
    case _ => true
  }

  ghost predicate ValidRun(s: State, run: seq<Action>)
    decreases run
  {
    run == [] || (Enabled(s, run[0]) && IntoLinked(s, run[0]) && ValidRun(Do(s, run[0]), run[1..]))
  }

  ghost function Exec(s: State, run: seq<Action>): State
    requires ValidRun(s, run)
    decreases run
  {
    if run == [] then s else Exec(Do(s, run[0]), run[1..])
  }

  lemma StepGood(s: State, a: Action)
    requires Good(s) && Enabled(s, a) && IntoLinked(s, a)
    ensures Good(Do(s, a))
  {
    hide Good, LinkEnd, Unlink, Create, LinkOutcome, CreateOutcome, LinkBegin, Put, Get;
    match a
    case Open(i) => GetGood(s, i);
    case Close(i) => PutGood(s, i);
    case LinkStart(i) => LinkBeginGood(s, i);
    case LinkFinish(i, dp, name, sameDev) => LinkEndGood(s, i, dp, name, sameDev);
    case Remove(d, name) => UnlinkGood(s, d, name);
    case Make(d, name, kind) => CreateCallGood(s, d, name, kind);
  }

  lemma {:induction false} RunGood(s: State, run: seq<Action>)
    requires Good(s) && ValidRun(s, run)
    ensures Good(Exec(s, run))
    decreases run
  {
    hide Good, Do, Enabled;
    if run != [] {
      StepGood(s, run[0]);
      RunGood(Do(s, run[0]), run[1..]);
    }
  }

  /** What mkfs leaves: a root directory that is its own parent. */
  ghost function Fresh(n: nat): State
    requires n > 1
  {
    State(seq(n, i => if i == ROOTINO then Node(Dir, 1, [Dirent(ROOTINO, "."), Dirent(ROOTINO, "..")]) else NOBODY),
      seq(n, i => 0), multiset{})
  }

  lemma FreshGood(n: nat)
    requires n > 1
    ensures Good(Fresh(n))
  {
    var nodes := Fresh(n).nodes;
    DotsShape(ROOTINO, ROOTINO, n);
    forall i: nat | i < n ensures nodes[i].nlink == Count(nodes, i) {
      forall d | 0 <= d < n && d != ROOTINO ensures Term(nodes[d], i) == 0 {}
      CountOne(nodes, ROOTINO, i);
      DotsCount(ROOTINO, ROOTINO, i);
    }
  }

  /** With no link call half way, every link count is the number of names in linked directories. */
  lemma LinkCountsExact(n: nat, run: seq<Action>, i: nat)
    requires n > 1 && ValidRun(Fresh(n), run)
    requires var s := Exec(Fresh(n), run); i < |s.nodes| && s.pending == multiset{}
    ensures var s := Exec(Fresh(n), run); s.nodes[i].nlink == Count(s.nodes, i)
  {
    hide Tree, Exec, ValidRun, Fresh, Count, Held;
    FreshGood(n);
    RunGood(Fresh(n), run);
  }

  /** In every reachable state a directory has no two names equal in their first DIRSIZ bytes. */
  lemma NamesDistinct(n: nat, run: seq<Action>, d: nat, j: nat, k: nat)
    requires n > 1 && ValidRun(Fresh(n), run)
    requires var s := Exec(Fresh(n), run);
             && d < |s.nodes| && s.nodes[d].kind == Dir && j < k < |s.nodes[d].entries|
             && s.nodes[d].entries[j].inum != 0 && s.nodes[d].entries[k].inum != 0
    ensures var es := Exec(Fresh(n), run).nodes[d].entries; !SameName(es[j].name, es[k].name)
  {
    hide Counted, Exec, ValidRun, Fresh, HasHome, Held;
    FreshGood(n);
    RunGood(Fresh(n), run);
    assert Shape(Exec(Fresh(n), run).nodes, d);
  }

  // ---- The failing case is reachable ----

  ghost predicate Reachable(s: State) {
    exists n: nat, run :: n > 1 && ValidRun(Fresh(n), run) && s == Exec(Fresh(n), run)
  }

  lemma {:induction false} ExecSnoc(s: State, run: seq<Action>, a: Action)
    requires ValidRun(s, run) && Enabled(Exec(s, run), a) && IntoLinked(Exec(s, run), a)
    ensures ValidRun(s, run + [a]) && Exec(s, run + [a]) == Do(Exec(s, run), a)
    decreases run
  {
    hide Do, Enabled, IntoLinked;
    if run == [] {
      assert [a][1..] == [] && run + [a] == [a];
    } else {
      ExecSnoc(Do(s, run[0]), run[1..], a);
      assert (run + [a])[1..] == run[1..] + [a] && (run + [a])[0] == run[0];
    }
  }

  lemma ReachStep(s: State, a: Action)
    requires Reachable(s) && Enabled(s, a) && IntoLinked(s, a)
    ensures Reachable(Do(s, a)) && Good(s)
  {
    hide Do, Enabled, IntoLinked, Good, Fresh, Exec, ValidRun;
    var n: nat, run :| n > 1 && ValidRun(Fresh(n), run) && s == Exec(Fresh(n), run);
    FreshGood(n);
    RunGood(Fresh(n), run);
    ExecSnoc(Fresh(n), run, a);
  }

  const ROOTDOTS := [Dirent(1, "."), Dirent(1, "..")]
  const SUBDOTS := [Dirent(2, "."), Dirent(1, "..")]

  lemma OpenRoot()
    ensures Reachable(State([NOBODY, Node(Dir, 1, ROOTDOTS), NOBODY, NOBODY], [0, 1, 0, 0], multiset{}))
  {
    hide Good;
    var s0, s1 := Fresh(4), State([NOBODY, Node(Dir, 1, ROOTDOTS), NOBODY, NOBODY], [0, 1, 0, 0], multiset{});
    assert ValidRun(s0, []) && Exec(s0, []) == s0;
    assert Do(s0, Open(1)) == s1;
    ReachStep(s0, Open(1));
  }

  lemma MakeA()
    ensures Reachable(State([NOBODY, Node(Dir, 2, ROOTDOTS + [Dirent(2, "a")]), Node(Dir, 1, SUBDOTS), NOBODY],
              [0, 0, 1, 0], multiset{}))
  {
    hide Good, Reachable, Put, CreateAt;
    var s1 := State([NOBODY, Node(Dir, 1, ROOTDOTS), NOBODY, NOBODY], [0, 1, 0, 0], multiset{});
    OpenRoot();
    assert Lookup(ROOTDOTS, "a") == None && FreeSlot(ROOTDOTS) == 2;
    assert Blank(s1.nodes) == Some(2);
    assert CreateOutcome(s1, 1, "a", Dir) == Done(2);
    ReachStep(s1, Make(1, "a", Dir));
    MadeA(s1);
  }

  lemma MadeA(s1: State)
    requires s1 == State([NOBODY, Node(Dir, 1, ROOTDOTS), NOBODY, NOBODY], [0, 1, 0, 0], multiset{})
    ensures var s2 := CreateAt(s1, 1, "a", Dir, 2); |s2.nodes| == |s2.refs| == 4 && s2.refs[1] == 1
    ensures Put(CreateAt(s1, 1, "a", Dir, 2), 1)
              == State([NOBODY, Node(Dir, 2, ROOTDOTS + [Dirent(2, "a")]), Node(Dir, 1, SUBDOTS), NOBODY], [0, 0, 1, 0],
                multiset{})
  {
    assert FreeSlot(ROOTDOTS) == 2;
    var s2 := CreateAt(s1, 1, "a", Dir, 2);
    assert s2.nodes == [NOBODY, Node(Dir, 2, ROOTDOTS + [Dirent(2, "a")]), Node(Dir, 1, SUBDOTS), NOBODY];
    assert s2.refs == [0, 1, 1, 0];
  }

  lemma RemoveA()
    ensures Reachable(State([NOBODY, Node(Dir, 1, ROOTDOTS + [UNUSED]), Node(Dir, 0, SUBDOTS), NOBODY], [0, 0, 1, 0],
              multiset{}))
  {
    hide Good, Reachable, Put, Release, UnlinkAt;
    var es := ROOTDOTS + [Dirent(2, "a")];
    var nodes := [NOBODY, Node(Dir, 2, es), Node(Dir, 1, SUBDOTS), NOBODY];
    var s2, s3 := State(nodes, [0, 0, 1, 0], multiset{}), State(nodes, [0, 1, 1, 0], multiset{});
    MakeA();
    assert Do(s2, Open(1)) == s3;
    ReachStep(s2, Open(1));
    FindA(es);
    assert UnlinkOutcome(s3, 1, "a") == Done(2);
    ReachStep(s3, Remove(1, "a"));
    RemovedA(s3, es);
  }

  lemma FindA(es: seq<Dirent>)
    requires es == ROOTDOTS + [Dirent(2, "a")]
    ensures Lookup(es, "a") == Some(2)
  {
    assert Lookup(es, "a", 2) == Some(2) && Lookup(es, "a", 1) == Some(2);
  }

  lemma RemovedA(s3: State, es: seq<Dirent>)
    requires es == ROOTDOTS + [Dirent(2, "a")]
    requires s3 == State([NOBODY, Node(Dir, 2, es), Node(Dir, 1, SUBDOTS), NOBODY], [0, 1, 1, 0], multiset{})
    ensures var s4 := UnlinkAt(s3, 1, 2); |s4.nodes| == |s4.refs| == 4 && s4.refs[1] == 1
    ensures Release(Put(UnlinkAt(s3, 1, 2), 1), 2)
              == State([NOBODY, Node(Dir, 1, ROOTDOTS + [UNUSED]), Node(Dir, 0, SUBDOTS), NOBODY], [0, 0, 1, 0],
                multiset{})
  {
    var s4 := UnlinkAt(s3, 1, 2);
    assert es[2 := UNUSED] == ROOTDOTS + [UNUSED];
    assert s4.nodes == [NOBODY, Node(Dir, 1, ROOTDOTS + [UNUSED]), Node(Dir, 0, SUBDOTS), NOBODY];
  }

  /** mkdir a, keep it open, unlink it, and create a file in it: the file has a link and no name. */
  lemma LostDirectory()
    ensures exists s, d: nat :: Reachable(s) && Enabled(s, Make(d, "f", File)) && !Good(Do(s, Make(d, "f", File)))
  {
    hide Good, Reachable, Put, CreateAt;
    var s4 := State([NOBODY, Node(Dir, 1, ROOTDOTS + [UNUSED]), Node(Dir, 0, SUBDOTS), NOBODY], [0, 0, 1, 0],
      multiset{});
    RemoveA();
    ReachStep(s4, Open(2));
    assert Lookup(SUBDOTS, "f") == None && FreeSlot(SUBDOTS) == 2;
    assert Blank(s4.nodes, 2) == Some(3) && Blank(s4.nodes) == Some(3);
    CreateIffLinked(s4, 2, "f", File);
    var a := Make(2, "f", File);
    assert Reachable(s4) && Enabled(s4, a) && !Good(Do(s4, a));
  }
}
