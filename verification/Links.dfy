/** Link counts of sysfile.c as values: the inode table with its directories, the in-memory
    references that keep unlinked inodes alive, and the calls as steps between lock releases. */
module Links {
  import opened Common

  const DIRSIZ: nat := 14
  const ROOTINO: nat := 1
  const MAXENTRIES: nat := 4480  // MAXFILE blocks of 32 entries

  datatype Kind = Free | File | Dir | Dev

  /** An entry with inode number 0 is an unused slot. */
  datatype Dirent = Dirent(inum: nat, name: string)

  datatype Node = Node(kind: Kind, nlink: int, entries: seq<Dirent>)

  /** pending holds the inodes of sys_link calls that have counted their link but not yet entered it. */
  datatype State = State(nodes: seq<Node>, refs: seq<nat>, pending: multiset<nat>)

  const NOBODY := Node(Free, 0, [])
  const UNUSED := Dirent(0, "")

  function Cut(name: string): string {
    if |name| > DIRSIZ then name[..DIRSIZ] else name
  }

  /** namecmp compares the first DIRSIZ bytes. */
  predicate SameName(s: string, t: string) {
    Cut(s) == Cut(t)
  }

  // ---- What the calls should keep ----

  ghost predicate Linked(n: Node) {
    n.kind == Dir && n.nlink > 0
  }

  /** Entry e counts as a link to inode i: every entry but "." does. */
  ghost predicate Counts(e: Dirent, i: nat) {
    e.inum == i && i != 0 && e.name != "."
  }

  ghost function CountIn(es: seq<Dirent>, i: nat): nat {
    if es == [] then 0 else CountIn(es[..|es| - 1], i) + if Counts(es[|es| - 1], i) then 1 else 0
  }

  ghost function Term(n: Node, i: nat): nat {
    if Linked(n) then CountIn(n.entries, i) else 0
  }

  /** The number of entries other than "." that name inode i in linked directories. */
  ghost function Count(nodes: seq<Node>, i: nat): nat {
    if nodes == [] then 0 else Count(nodes[..|nodes| - 1], i) + Term(nodes[|nodes| - 1], i)
  }

  /** Directory d names inode i in slot k, by a name other than "." and "..". */
  ghost predicate NamedAt(nodes: seq<Node>, d: nat, k: nat, i: nat) {
    d < |nodes| && Linked(nodes[d]) && 2 <= k < |nodes[d].entries| && nodes[d].entries[k].inum == i
  }

  ghost predicate UniqueNames(es: seq<Dirent>) {
    forall j, k :: 0 <= j < k < |es| && es[j].inum != 0 && es[k].inum != 0 ==> !SameName(es[j].name, es[k].name)
  }

  ghost predicate DirShape(es: seq<Dirent>, i: nat, n: nat) {
    && 2 <= |es| <= MAXENTRIES && es[0] == Dirent(i, ".") && es[1].name == ".." && es[1].inum != 0
    && (forall k :: 0 <= k < |es| ==> es[k].inum < n)
    && UniqueNames(es)
  }

  ghost predicate Shape(nodes: seq<Node>, i: nat)
    requires i < |nodes|
  {
    && (nodes[i].kind == Dir ==> i != 0 && DirShape(nodes[i].entries, i, |nodes|))
    && (nodes[i].kind != Dir ==> nodes[i].entries == [])
    && (nodes[i].kind == Free ==> nodes[i].nlink == 0)
  }

  /** isdirempty looks from the third slot on. */
  predicate EmptyDir(es: seq<Dirent>) {
    forall k :: 2 <= k < |es| ==> es[k].inum == 0
  }

  /** A linked directory has exactly one name, in the directory that its ".." names. */
  ghost predicate HomeAt(nodes: seq<Node>, c: nat, k: nat)
    requires c < |nodes|
  {
    |nodes[c].entries| >= 2 &&
    var p := nodes[c].entries[1].inum;
    NamedAt(nodes, p, k, c) && forall d, j: nat :: NamedAt(nodes, d, j, c) ==> d == p && j == k
  }

  ghost predicate HasHome(nodes: seq<Node>, c: nat)
    requires c < |nodes|
  {
    exists k :: HomeAt(nodes, c, k)
  }

  ghost predicate Tree(nodes: seq<Node>) {
    && 1 < |nodes| && nodes[0].kind == Free
    && (forall i: nat :: i < |nodes| ==> Shape(nodes, i))
    && Linked(nodes[ROOTINO]) && |nodes[ROOTINO].entries| >= 2 && nodes[ROOTINO].entries[1].inum == ROOTINO
    && (forall d, k: nat :: !NamedAt(nodes, d, k, ROOTINO))
    && (forall c: nat :: c < |nodes| && c != ROOTINO && Linked(nodes[c]) ==> HasHome(nodes, c))
    && (forall c: nat :: c < |nodes| && nodes[c].kind == Dir && nodes[c].nlink == 0 ==> EmptyDir(nodes[c].entries))
  }

  /** Every link count is the number of entries plus the links in flight. */
  ghost predicate Counted(s: State) {
    forall i: nat :: i < |s.nodes| ==> s.nodes[i].nlink == Count(s.nodes, i) + s.pending[i]
  }

  ghost predicate Held(s: State) {
    && |s.refs| == |s.nodes|
    && (forall i: nat :: i < |s.nodes| && s.nodes[i].kind == Free ==> s.refs[i] == 0)
    && (forall i: nat :: s.pending[i] > 0 ==> i < |s.nodes| && s.pending[i] <= s.refs[i] && s.nodes[i].kind != Dir)
  }

  /** An inode without links is freed when its last reference goes. */
  ghost predicate Alive(s: State, i: nat)
    requires i < |s.nodes| == |s.refs|
  {
    s.nodes[i].kind != Free && s.nodes[i].nlink == 0 ==> s.refs[i] > 0
  }

  ghost predicate Core(s: State) {
    Tree(s.nodes) && Counted(s) && Held(s)
  }

  ghost predicate Good(s: State) {
    Core(s) && forall i: nat :: i < |s.nodes| ==> Alive(s, i)
  }

  // ---- Directory operations ----

  /** dirlookup: the first used slot whose name matches. */
  function Lookup(es: seq<Dirent>, name: string, from: nat := 0): (k: Option<nat>)
    requires from <= |es|
    ensures k.Some? ==> from <= k.value < |es| && es[k.value].inum != 0 && SameName(es[k.value].name, name)
    ensures k == None ==> forall j :: from <= j < |es| && es[j].inum != 0 ==> !SameName(es[j].name, name)
    decreases |es| - from
  {
    if from == |es| then None
    else if es[from].inum != 0 && SameName(name, es[from].name) then Some(from)
    else Lookup(es, name, from + 1)
  }

  /** dirlink's slot: the first unused one, or one more. */
  function FreeSlot(es: seq<Dirent>, from: nat := 0): (k: nat)
    requires from <= |es|
    ensures from <= k <= |es| && (k < |es| ==> es[k].inum == 0) && forall j :: from <= j < k ==> es[j].inum != 0
    decreases |es| - from
  {
    if from == |es| || es[from].inum == 0 then from else FreeSlot(es, from + 1)
  }

  function Enter(es: seq<Dirent>, k: nat, e: Dirent): seq<Dirent>
    requires k <= |es|
  {
    if k < |es| then es[k := e] else es + [e]
  }

  function Blank(nodes: seq<Node>, from: nat := 1): (i: Option<nat>)
    requires from <= |nodes|
    ensures i.Some? ==> from <= i.value < |nodes| && nodes[i.value].kind == Free
    ensures i == None ==> forall j :: from <= j < |nodes| ==> nodes[j].kind != Free
    decreases |nodes| - from
  {
    if from == |nodes| then None else if nodes[from].kind == Free then Some(from) else Blank(nodes, from + 1)
  }

  // ---- The calls ----

  function SetNode(s: State, i: nat, n: Node): State
    requires i < |s.nodes|
  {
    s.(nodes := s.nodes[i := n])
  }

  function AddLinks(s: State, i: nat, n: int): State
    requires i < |s.nodes|
  {
    SetNode(s, i, s.nodes[i].(nlink := s.nodes[i].nlink + n))
  }

  /** What iput does once the reference is given back. */
  function Release(s: State, i: nat): State
    requires i < |s.nodes| == |s.refs|
  {
    if s.nodes[i].nlink == 0 && s.refs[i] == 0 then SetNode(s, i, NOBODY) else s
  }

  function Put(s: State, i: nat): State
    requires i < |s.nodes| == |s.refs| && s.refs[i] > 0
  {
    Release(s.(refs := s.refs[i := s.refs[i] - 1]), i)
  }

  function Get(s: State, i: nat): State
    requires i < |s.nodes| == |s.refs|
  {
    s.(refs := s.refs[i := s.refs[i] + 1])
  }

  /** sys_link up to the first iunlock. */
  function LinkBegin(s: State, i: nat): State
    requires i < |s.nodes| == |s.refs| && s.refs[i] > 0
  {
    if s.nodes[i].kind == Dir then Put(s, i) else AddLinks(s, i, 1).(pending := s.pending + multiset{i})
  }

  /** The exit of sys_link that takes the count back. */
  function LinkFail(s: State, i: nat): State
    requires i < |s.nodes| == |s.refs| && s.refs[i] > 0
  {
    Put(AddLinks(s, i, -1).(pending := s.pending - multiset{i}), i)
  }

  function EnterIn(s: State, d: nat, name: string, i: nat): State
    requires d < |s.nodes|
  {
    SetNode(s, d, s.nodes[d].(entries := Enter(s.nodes[d].entries, FreeSlot(s.nodes[d].entries), Dirent(i, Cut(name)))))
  }

  function LinkEnter(s: State, i: nat, d: nat, name: string): State
    requires i < |s.nodes| && d < |s.nodes|
  {
    EnterIn(s, d, name, i).(pending := s.pending - multiset{i})
  }

  function ClearAt(s: State, d: nat, k: nat): State
    requires d < |s.nodes| && k < |s.nodes[d].entries|
  {
    SetNode(s, d, s.nodes[d].(entries := s.nodes[d].entries[k := UNUSED]))
  }

  /** sys_unlink's changes to the directory and to the two link counts. */
  function UnlinkAt(s: State, d: nat, k: nat): State
    requires d < |s.nodes| && k < |s.nodes[d].entries| && s.nodes[d].entries[k].inum < |s.nodes|
  {
    var t := s.nodes[d].entries[k].inum;
    AddLinks(if s.nodes[t].kind == Dir then AddLinks(ClearAt(s, d, k), d, -1) else ClearAt(s, d, k), t, -1)
  }

  function NewNode(kind: Kind, n: nat, d: nat): Node {
    Node(kind, 1, if kind == Dir then [Dirent(n, "."), Dirent(d, "..")] else [])
  }

  /** create's changes when it makes inode n, with the reference it returns. */
  function CreateAt(s: State, d: nat, name: string, kind: Kind, n: nat): State
    requires n < |s.nodes| == |s.refs| && d < |s.nodes|
  {
    var parent := s.nodes[d].(nlink := s.nodes[d].nlink + if kind == Dir then 1 else 0);
    Get(EnterIn(SetNode(SetNode(s, d, parent), n, NewNode(kind, n, d)), d, name, n), n)
  }
}
