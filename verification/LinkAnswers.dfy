/** What create, link and unlink answer, and what their answer means for the names in the directory. */
module LinkAnswers {
  import opened Common
  import opened Links
  import opened LinkFacts
  import opened LinkRuns

  /** A used entry with this name, in its first DIRSIZ bytes, is for inode i. */
  ghost predicate FoundIn(es: seq<Dirent>, name: string, i: nat) {
    i != 0 && exists k :: 0 <= k < |es| && es[k].inum == i && SameName(es[k].name, name)
  }

  ghost predicate Absent(es: seq<Dirent>, name: string) {
    forall i: nat :: !FoundIn(es, name, i)
  }

  /** The names of es' are those of es, but for this one. */
  ghost predicate SameBut(es: seq<Dirent>, es': seq<Dirent>, name: string) {
    forall other: string, i: nat :: !SameName(other, name) ==> (FoundIn(es', other, i) <==> FoundIn(es, other, i))
  }

  /** A directory holds nothing but its dots. */
  ghost predicate OnlyDots(es: seq<Dirent>) {
    forall k :: 2 <= k < |es| ==> es[k].inum == 0
  }

  /** create: an existing name is opened if it is a file and a file was asked for; a new name is entered,
      for an inode that was free.  No other inode changes. */
  ghost predicate CreateAnswer(s: State, s': State, d: nat, name: string, kind: Kind, r: Outcome)
    requires d < |s.nodes| == |s'.nodes|
  {
    var es := s.nodes[d].entries;
    && (forall t: nat :: FoundIn(es, name, t) && t < |s.nodes| && s.nodes[t].kind != Free ==>
          r == if kind == File && s.nodes[t].kind == File then Done(t) else Failed)
    && (Absent(es, name) ==> r != Failed)
    && (Absent(es, name) && r.Done? ==>
          && r.inum < |s.nodes| && s.nodes[r.inum].kind == Free
          && s'.nodes[r.inum].kind == kind && s'.nodes[r.inum].nlink == 1
          && (s'.nodes[d].kind == Dir ==>
                FoundIn(s'.nodes[d].entries, name, r.inum) && SameBut(es, s'.nodes[d].entries, name)))
    && (forall i :: 0 <= i < |s.nodes| && i != d && !(r.Done? && i == r.inum) ==> s'.nodes[i] == s.nodes[i])
  }

  /** link: entered exactly when the directory was found, is on the same device and has no such name. */
  ghost predicate LinkAnswer(s: State, s': State, i: nat, dp: Option<nat>, name: string, sameDev: bool, r: Outcome)
    requires (dp.Some? ==> dp.value < |s.nodes|) && |s'.nodes| == |s.nodes|
  {
    && (r == Failed <==> dp == None || !sameDev || !Absent(s.nodes[dp.value].entries, name))
    && (r.Done? && s'.nodes[dp.value].kind == Dir ==>
          && FoundIn(s'.nodes[dp.value].entries, name, i)
          && SameBut(s.nodes[dp.value].entries, s'.nodes[dp.value].entries, name))
    && (forall j :: 0 <= j < |s.nodes| && j != i && dp != Some(j) ==> s'.nodes[j] == s.nodes[j])
  }

  /** unlink: a name other than "." and ".." goes, unless it is that of a directory with names. */
  ghost predicate UnlinkAnswer(s: State, s': State, d: nat, name: string, r: Outcome)
    requires d < |s.nodes| == |s'.nodes|
  {
    var es := s.nodes[d].entries;
    && (forall t: nat :: FoundIn(es, name, t) && t < |s.nodes| && !SameName(name, ".") && !SameName(name, "..") ==>
          r == if s.nodes[t].kind == Dir && !OnlyDots(s.nodes[t].entries) then Failed else Done(t))
    && (Absent(es, name) || SameName(name, ".") || SameName(name, "..") ==> r == Failed)
    && (r.Done? && s'.nodes[d].kind == Dir ==>
          Absent(s'.nodes[d].entries, name) && SameBut(es, s'.nodes[d].entries, name))
    && (r.Done? && r.inum < |s.nodes| ==>
          s'.nodes[r.inum] == NOBODY || s'.nodes[r.inum].nlink == s.nodes[r.inum].nlink - 1)
    && (forall i :: 0 <= i < |s.nodes| && i != d && !(r.Done? && i == r.inum) ==> s'.nodes[i] == s.nodes[i])
  }

  // ---- Names and slots ----

  lemma DirNames(s: State, d: nat)
    requires Good(s) && HasDir(s, d)
    ensures DirShape(s.nodes[d].entries, d, |s.nodes|) && d != 0
  {
    hide Counted, HasHome;
    assert Shape(s.nodes, d);
  }

  /** Looking a name up finds it exactly when it is there. */
  lemma LookupFinds(es: seq<Dirent>, name: string)
    requires UniqueNames(es)
    ensures Names(es, name) <==> !Absent(es, name)
    ensures Names(es, name) ==>
              var k := Lookup(es, name).value;
              FoundIn(es, name, es[k].inum) && forall t: nat :: FoundIn(es, name, t) ==> t == es[k].inum
  {
    if Names(es, name) {
      var k := Lookup(es, name).value;
      assert FoundIn(es, name, es[k].inum);
      forall t: nat | FoundIn(es, name, t) ensures t == es[k].inum {
        var j :| 0 <= j < |es| && es[j].inum == t && SameName(es[j].name, name);
      }
    }
  }

  lemma EnterFinds(es: seq<Dirent>, name: string, i: nat)
    requires i != 0
    ensures var es' := Enter(es, FreeSlot(es), Dirent(i, Cut(name))); FoundIn(es', name, i) && SameBut(es, es', name)
  {
    var k := FreeSlot(es);
    var es' := Enter(es, k, Dirent(i, Cut(name)));
    assert es'[k] == Dirent(i, Cut(name)) && SameName(es'[k].name, name);
    forall other: string, t: nat | !SameName(other, name) ensures FoundIn(es', other, t) <==> FoundIn(es, other, t) {
      if FoundIn(es, other, t) {
        var j :| 0 <= j < |es| && es[j].inum == t && SameName(es[j].name, other);
        assert es'[j] == es[j];
      }
      if FoundIn(es', other, t) {
        var j :| 0 <= j < |es'| && es'[j].inum == t && SameName(es'[j].name, other);
        assert j != k && es[j] == es'[j];
      }
    }
  }

  lemma ClearLoses(es: seq<Dirent>, name: string, k: nat)
    requires UniqueNames(es) && k < |es| && es[k].inum != 0 && SameName(es[k].name, name)
    ensures Absent(es[k := UNUSED], name) && SameBut(es, es[k := UNUSED], name)
  {
    var es' := es[k := UNUSED];
    forall other: string, t: nat | !SameName(other, name) ensures FoundIn(es', other, t) <==> FoundIn(es, other, t) {
      if FoundIn(es, other, t) {
        var j :| 0 <= j < |es| && es[j].inum == t && SameName(es[j].name, other);
        assert es'[j] == es[j];
      }
    }
  }

  // ---- The calls ----

  lemma NamesUnique(es: seq<Dirent>, d: nat, n: nat)
    requires DirShape(es, d, n)
    ensures UniqueNames(es)
  {
  }

  /** iput changes no node but one that it frees. */
  lemma PutNodes(s: State, d: nat)
    requires d < |s.nodes| == |s.refs| && s.refs[d] > 0
    ensures var p := Put(s, d); |p.refs| == |s.refs| && (p.nodes == s.nodes || p.nodes == s.nodes[d := NOBODY])
    ensures s.nodes[d].nlink != 0 ==> Put(s, d).nodes == s.nodes
  {
  }

  lemma CreateAtNodes(s: State, d: nat, name: string, kind: Kind, n: nat)
    requires n < |s.nodes| == |s.refs| && d < |s.nodes| && n != d
    ensures var c := CreateAt(s, d, name, kind, n);
            var es := s.nodes[d].entries;
            && |c.refs| == |c.nodes| == |s.nodes| && c.refs[d] == s.refs[d] && c.nodes[n] == NewNode(kind, n, d)
            && c.nodes[d].kind == s.nodes[d].kind
            && c.nodes[d].entries == Enter(es, FreeSlot(es), Dirent(n, Cut(name)))
            && forall i :: 0 <= i < |s.nodes| && i != d && i != n ==> c.nodes[i] == s.nodes[i]
  {
    hide FreeSlot, Enter;
  }

  lemma CreateMeans(s: State, d: nat, name: string, kind: Kind)
    requires Good(s) && HasDir(s, d) && kind != Free
    ensures |Create(s, d, name, kind).nodes| == |s.nodes|
    ensures CreateOutcome(s, d, name, kind) != Panicked ==>
              CreateAnswer(s, Create(s, d, name, kind), d, name, kind, CreateOutcome(s, d, name, kind))
  {
    hide Good, Lookup, FreeSlot, Enter, Blank, FoundIn, SameBut, DirShape, Put, CreateAt;
    DirNames(s, d);
    var es := s.nodes[d].entries;
    NamesUnique(es, d, |s.nodes|);
    LookupFinds(es, name);
    PutNodes(s, d);
    var r := CreateOutcome(s, d, name, kind);
    if r.Done? {
      if Names(es, name) {
        PutNodes(Get(s, r.inum), d);
      } else {
        EnterFinds(es, name, r.inum);
        CreateAtNodes(s, d, name, kind, r.inum);
        PutNodes(CreateAt(s, d, name, kind, r.inum), d);
      }
    }
  }

  lemma HeldNotZero(s: State, i: nat)
    requires Good(s) && HasFile(s, i)
    ensures i != 0
  {
    hide Counted, HasHome, Count;
  }

  lemma LinkMeans(s: State, i: nat, dp: Option<nat>, name: string, sameDev: bool)
    requires Good(s) && HasFile(s, i) && (dp.Some? ==> HasDir(s, dp.value))
    ensures |LinkEnd(s, i, dp, name, sameDev).nodes| == |s.nodes|
    ensures LinkOutcome(s, dp, name, sameDev) != Panicked ==>
              LinkAnswer(s, LinkEnd(s, i, dp, name, sameDev), i, dp, name, sameDev, LinkOutcome(s, dp, name, sameDev))
  {
    hide Good, Lookup, FreeSlot, Enter, FoundIn, SameBut, DirShape, Put;
    if dp == None {
      PutNodes(AddLinks(s, i, -1).(pending := s.pending - multiset{i}), i);
    } else {
      var d, es := dp.value, s.nodes[dp.value].entries;
      DirNames(s, d);
      NamesUnique(es, d, |s.nodes|);
      LookupFinds(es, name);
      if LinkOutcome(s, dp, name, sameDev).Done? {
        HeldNotZero(s, i);
        EnterFinds(es, name, i);
        var s1 := LinkEnter(s, i, d, name);
        PutNodes(s1, d);
        PutOther(s1, d, i);
        PutNodes(Put(s1, d), i);
      } else if LinkOutcome(s, dp, name, sameDev).Failed? {
        PutNodes(s, d);
        PutOther(s, d, i);
        var s1 := Put(s, d);
        PutNodes(AddLinks(s1, i, -1).(pending := s1.pending - multiset{i}), i);
      }
    }
  }

  /** What unlink removes is not the directory itself. */
  lemma TargetApart(s: State, d: nat, name: string)
    requires Good(s) && HasDir(s, d) && UnlinkOutcome(s, d, name).Done?
    ensures UnlinkOutcome(s, d, name).inum != d
  {
    hide Lookup, Counted, HasHome, Count;
    FoundName(s, d, name);
    var k := Lookup(s.nodes[d].entries, name).value;
    if s.nodes[d].entries[k].inum == d { EmptyDirHasOneLink(s, d, k); }
  }

  lemma UnlinkNodes(s: State, d: nat, k: nat, t: nat)
    requires d < |s.nodes| == |s.refs| && k < |s.nodes[d].entries| && t == s.nodes[d].entries[k].inum < |s.nodes|
    requires t != d
    ensures var u := UnlinkAt(s, d, k);
            && u.refs == s.refs && |u.nodes| == |s.nodes| && u.nodes[d].entries == s.nodes[d].entries[k := UNUSED]
            && u.nodes[d].kind == s.nodes[d].kind && u.nodes[t] == s.nodes[t].(nlink := s.nodes[t].nlink - 1)
            && forall i :: 0 <= i < |s.nodes| && i != d && i != t ==> u.nodes[i] == s.nodes[i]
  {
  }

  lemma UnlinkMeans(s: State, d: nat, name: string)
    requires Good(s) && HasDir(s, d)
    ensures |Unlink(s, d, name).nodes| == |s.nodes|
    ensures UnlinkAnswer(s, Unlink(s, d, name), d, name, UnlinkOutcome(s, d, name))
  {
    hide Good, Lookup, FoundIn, SameBut, DirShape, Put, UnlinkAt;
    DirNames(s, d);
    var es := s.nodes[d].entries;
    NamesUnique(es, d, |s.nodes|);
    LookupFinds(es, name);
    UnlinkGood(s, d, name);
    PutNodes(s, d);
    if UnlinkOutcome(s, d, name).Done? {
      var k, t := Lookup(es, name).value, UnlinkOutcome(s, d, name).inum;
      TargetApart(s, d, name);
      ClearLoses(es, name, k);
      UnlinkNodes(s, d, k, t);
      PutNodes(UnlinkAt(s, d, k), d);
    }
  }
}
