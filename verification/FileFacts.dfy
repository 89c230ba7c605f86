/** What one step of bmap, writei and itrunc does to slots, bitmap, file bytes and the set of
    logged blocks, on plain values. */
module FileFacts {
  import opened Common
  import opened BlockData
  import opened FsState

  ghost predicate Grows(o: Owner, o': Owner) {
    forall b :: b in o ==> b in o' && o'[b] == o[b]
  }

  lemma ExtendsTrans(s1: Fs, s2: Fs, s3: Fs, o1: Owner, o2: Owner)
    requires Shape(s1) && Extends(s1, s2, o1) && Extends(s2, s3, o2) && Grows(o1, o2)
    ensures Extends(s1, s3, o1)
  {
    forall i, k | IsSlot(s1, i, k) && Addr(s1, i, k) != 0 ensures Addr(s3, i, k) == Addr(s1, i, k) {
      assert IsSlot(s2, i, k) && Addr(s2, i, k) == Addr(s1, i, k);
    }
  }

  /** Bytes of mapped blocks survive an extension. */
  lemma ExtendsBytes(s: Fs, s': Fs, owner: Owner, j: int, x: nat)
    requires Shape(s) && Owned(s, owner, {}, {}) && Extends(s, s', owner)
    requires 0 <= j < |s.inodes| && Mapped(s, j, x / BSIZE)
    ensures Mapped(s', j, x / BSIZE) && ByteAt(s', j, x) == ByteAt(s, j, x)
  {
    var k := SlotOf(x / BSIZE);
    assert IsSlot(s, j, k) && Addr(s, j, k) != 0;
  }

  /** Replacing the block behind file block bn of inode i changes those bytes only. */
  lemma PutBytes(s: Fs, owner: Owner, i: int, bn: nat, v: Block, j: int, x: nat)
    requires Shape(s) && Owned(s, owner, {}, {}) && 0 <= i < |s.inodes| && Mapped(s, i, bn)
    requires 0 <= j < |s.inodes| && Mapped(s, j, x / BSIZE)
    ensures var s' := PutBlock(s, Addr(s, i, SlotOf(bn)), v);
            && Shape(s') && Mapped(s', j, x / BSIZE)
            && ByteAt(s', j, x) == if j == i && x / BSIZE == bn then v[x % BSIZE] else ByteAt(s, j, x)
  {
    var k, l := SlotOf(bn), SlotOf(x / BSIZE);
    var a := Addr(s, i, k);
    assert IsSlot(s, i, k) && IsSlot(s, j, l);
    assert a in owner && owner[a] == (i, k);
    PutDataKeepsOwned(s, owner, a, v);
    assert Addr(s, j, l) in owner && owner[Addr(s, j, l)] == (j, l);
  }

  function Patched(v: Block, at: nat, data: seq<bv8>): (r: Block)
    requires at + |data| <= BSIZE
    ensures forall i :: 0 <= i < BSIZE ==> r[i] == if at <= i < at + |data| then data[i - at] else v[i]
  {
    v[..at] + data + v[at + |data|..]
  }

  function Splice(c: seq<bv8>, off: nat, data: seq<bv8>): seq<bv8>
    requires off <= |c|
  {
    if off + |data| <= |c| then c[..off] + data + c[off + |data|..] else c[..off] + data
  }

  /** Number of blocks that bytes off .. off+n-1 touch. */
  function Span(off: nat, n: nat): nat {
    if n == 0 then 0 else (off + n - 1) / BSIZE - off / BSIZE + 1
  }

  /** log_write was called for every block whose contents changed. */
  ghost predicate Covers(bs: seq<Block>, bs': seq<Block>, logged: set<nat>, logged': set<nat>) {
    && |bs'| == |bs| && logged <= logged'
    && forall c :: 0 <= c < |bs| && bs'[c] != bs[c] ==> c in logged'
  }

  /** Every inode that was copied to its block since is in a logged block. */
  ghost predicate InodesLogged(sb: Super, was: seq<Inode>, now: seq<Inode>, logged: set<nat>) {
    |now| == |was| && forall i :: 0 <= i < |was| && now[i] != was[i] ==> IBlock(sb, i) in logged
  }

  lemma CoversGrows(bs: seq<Block>, bs': seq<Block>, logged: set<nat>, logged': set<nat>)
    requires Covers(bs, bs', logged, logged')
    ensures logged <= logged'
  {
  }

  lemma CoversSame(bs: seq<Block>, logged: set<nat>)
    ensures Covers(bs, bs, logged, logged)
  {
  }

  lemma CoversMore(bs: seq<Block>, bs': seq<Block>, l: set<nat>, l': set<nat>, b: nat)
    requires Covers(bs, bs', l, l')
    ensures Covers(bs, bs', l, l' + {b})
  {
  }

  lemma CoversTrans(bs: seq<Block>, bs1: seq<Block>, bs2: seq<Block>, l: set<nat>, l1: set<nat>, l2: set<nat>)
    requires Covers(bs, bs1, l, l1) && Covers(bs1, bs2, l1, l2)
    ensures Covers(bs, bs2, l, l2)
  {
  }

  /** No block is left: the situation in which balloc panics. */
  ghost predicate NoneFree(s: Fs) {
    Shape(s) && forall c :: 0 <= c < s.sb.size ==> Used(s, c)
  }

  /** From s to s' one empty slot (i, k) received the new zeroed block b; nothing else changed. */
  ghost predicate GoodStep(s: Fs, s': Fs, o: Owner, o': Owner, i: nat, k: nat, b: nat) {
    && Shape(s) && i < |s.inodes| && k < SLOTS
    && Extends(s, s', o) && Owned(s', o', {}, {}) && Grows(o, o')
    && 0 != b < s.sb.size && Addr(s', i, k) == b && s'.blocks[b] == Zeros(BSIZE)
    && b in o' && o'[b] == (i as int, k as int)
    && (forall j :: 0 <= j < |s.inodes| && j != i ==> s'.inodes[j] == s.inodes[j])
    && (k >= ADDRS ==> s'.inodes == s.inodes)
  }

  /** The meaning of a successful bmap: addr is the block of file block bn, owned by its slot. */
  ghost predicate GoodMap(s: Fs, s': Fs, o: Owner, o': Owner, i: nat, bn: nat, addr: nat) {
    && Shape(s) && i < |s.inodes| && bn < MAXFILE
    && Extends(s, s', o) && Owned(s', o', {}, {}) && Grows(o, o')
    && 0 != addr < s.sb.size && Addr(s', i, SlotOf(bn)) == addr
    && addr in o' && o'[addr] == (i as int, SlotOf(bn) as int)
    && (Addr(s, i, SlotOf(bn)) == 0 ==> s'.blocks[addr] == Zeros(BSIZE))
    && (forall j :: 0 <= j < |s.inodes| && j != i ==> s'.inodes[j] == s.inodes[j])
  }

  lemma AllocAddrFacts(s: Fs, owner: Owner, i: nat, k: nat, b: nat)
    requires Shape(s) && Owned(s, owner, {}, {}) && i < |s.inodes| && k < ADDRS && s.inodes[i].addrs[k] == 0
    requires b < s.sb.size && !Used(s, b)
    ensures GoodStep(s, SetAddr(Alloc(s, b), i, k, b), owner, owner[b := (i as int, k as int)], i, k, b)
  {
    AllocKeepsOwned(s, owner, b);
    var s1 := Alloc(s, b);
    SetAddrKeepsOwned(s1, owner, i, k, b);
    ExtendsTrans(s, s1, SetAddr(s1, i, k, b), owner, owner);
  }

  lemma AllocEntryFacts(s: Fs, owner: Owner, i: nat, e: nat, b: nat, v: Block)
    requires Shape(s) && Owned(s, owner, {}, {}) && i < |s.inodes| && e < NINDIRECT
    requires 0 != s.inodes[i].addrs[NDIRECT] < s.sb.size && Addr(s, i, ADDRS + e) == 0
    requires b < s.sb.size && !Used(s, b)
    requires EntryWritten(Alloc(s, b).blocks[s.inodes[i].addrs[NDIRECT]], v, e, b)
    ensures GoodStep(s, PutBlock(Alloc(s, b), s.inodes[i].addrs[NDIRECT], v), owner,
                     owner[b := (i as int, (ADDRS + e) as int)], i, ADDRS + e, b)
  {
    hide Owned, OwnedAt;
    AllocKeepsOwned(s, owner, b);
    TableOwned(s, owner, {}, {}, i);
    var s1, t := Alloc(s, b), s.inodes[i].addrs[NDIRECT];
    SetEntryKeepsOwned(s1, owner, i, e, b, v);
    var s2 := PutBlock(s1, t, v);
    ExtendsTrans(s, s1, s2, owner, owner);
    assert b != t;
  }

  lemma MapFound(s: Fs, owner: Owner, i: nat, bn: nat)
    requires Shape(s) && Owned(s, owner, {}, {}) && i < |s.inodes| && bn < MAXFILE && Addr(s, i, SlotOf(bn)) != 0
    ensures GoodMap(s, s, owner, owner, i, bn, Addr(s, i, SlotOf(bn)))
  {
    assert IsSlot(s, i, SlotOf(bn));
    assert OwnedAt(s, owner, Addr(s, i, SlotOf(bn)), {});
  }

  lemma StepIsMap(s: Fs, s': Fs, o: Owner, o': Owner, i: nat, bn: nat, addr: nat)
    requires bn < MAXFILE && GoodStep(s, s', o, o', i, SlotOf(bn), addr)
    ensures GoodMap(s, s', o, o', i, bn, addr)
  {
    hide Owned, OwnedAt;
  }

  /** First the table, if it was missing, then the entry. */
  lemma GoodMapTrans(s: Fs, s1: Fs, s2: Fs, o: Owner, o1: Owner, o2: Owner, i: nat, bn: nat, addr: nat)
    requires NDIRECT <= bn < MAXFILE && Shape(s) && i < |s.inodes|
    requires (s1 == s && o1 == o) || exists t :: GoodStep(s, s1, o, o1, i, NDIRECT, t)
    requires GoodStep(s1, s2, o1, o2, i, SlotOf(bn), addr)
    ensures GoodMap(s, s2, o, o2, i, bn, addr)
  {
    hide Owned, OwnedAt;
    if s1 != s || o1 != o { ExtendsTrans(s, s1, s2, o, o1); }
  }

  /** From s to s' the bytes data were stored at offset off of inode i, inside one block. */
  ghost predicate PartWritten(s: Fs, s': Fs, o': Owner, i: nat, off: nat, data: seq<bv8>) {
    && SameFiles(s, s', o', i)
    && (Mapped(s, i, off / BSIZE) ==> s'.inodes == s.inodes)
    && (s.inodes[i].addrs[NDIRECT] != 0 ==> s'.inodes[i].addrs[NDIRECT] == s.inodes[i].addrs[NDIRECT])
    && KeepsBytes(s, s', i, off, |data|)
    && HasBytes(s', i, off, data)
  }

  ghost predicate SameFiles(s: Fs, s': Fs, o': Owner, i: nat) {
    && Shape(s) && Shape(s') && s'.sb == s.sb && i < |s.inodes| && Owned(s', o', {}, {})
    && s'.inodes[i].size == s.inodes[i].size
    && (forall j :: 0 <= j < |s.inodes| && j != i ==> s'.inodes[j] == s.inodes[j])
  }

  /** All mapped bytes of all files stay, except bytes off .. off+n-1 of inode i. */
  ghost predicate KeepsBytes(s: Fs, s': Fs, i: nat, off: nat, n: nat)
    requires Shape(s) && Shape(s') && s'.sb == s.sb
  {
    forall j, x: nat :: 0 <= j < |s.inodes| && Mapped(s, j, x / BSIZE) && !(j == i && off <= x < off + n) ==>
      Mapped(s', j, x / BSIZE) && ByteAt(s', j, x) == ByteAt(s, j, x)
  }

  ghost predicate HasBytes(s: Fs, i: nat, off: nat, data: seq<bv8>)
    requires Shape(s) && i < |s.inodes|
  {
    forall x: nat :: off <= x < off + |data| ==>
      Mapped(s, i, x / BSIZE) && ByteAt(s, i, x) == data[x - off]
  }

  lemma PartFacts(s: Fs, s1: Fs, o: Owner, o1: Owner, i: nat, off: nat, data: seq<bv8>, addr: nat)
    requires Shape(s) && Owned(s, o, {}, {}) && data != [] && off % BSIZE + |data| <= BSIZE
    requires GoodMap(s, s1, o, o1, i, off / BSIZE, addr)
    requires Addr(s, i, SlotOf(off / BSIZE)) != 0 ==> s1 == s
    ensures PartWritten(s, PutBlock(s1, addr, Patched(s1.blocks[addr], off % BSIZE, data)), o1, i, off, data)
  {
    hide Owned, OwnedAt, ByteAt;
    var v := Patched(s1.blocks[addr], off % BSIZE, data);
    var s2 := PutBlock(s1, addr, v);
    PutDataKeepsOwned(s1, o1, addr, v);
    forall j, x: nat | 0 <= j < |s.inodes| && Mapped(s, j, x / BSIZE) && !(j == i && off <= x < off + |data|)
      ensures Mapped(s2, j, x / BSIZE) && ByteAt(s2, j, x) == ByteAt(s, j, x)
    {
      ExtendsBytes(s, s1, o, j, x);
      PutBytes(s1, o1, i, off / BSIZE, v, j, x);
      if j == i { PatchedByte(s1, i, off, data, addr, x); }
    }
    forall x: nat | off <= x < off + |data|
      ensures Mapped(s2, i, x / BSIZE) && ByteAt(s2, i, x) == data[x - off]
    {
      PutBytes(s1, o1, i, off / BSIZE, v, i, x);
    }
    TableStays(s, s1, o, i);
  }

  lemma PatchedByte(s: Fs, i: nat, off: nat, data: seq<bv8>, addr: nat, x: nat)
    requires Shape(s) && i < |s.inodes| && off % BSIZE + |data| <= BSIZE && addr < |s.blocks|
    requires !(off <= x < off + |data|) && Mapped(s, i, off / BSIZE) && Addr(s, i, SlotOf(off / BSIZE)) == addr
    ensures x / BSIZE == off / BSIZE ==>
              Patched(s.blocks[addr], off % BSIZE, data)[x % BSIZE] == ByteAt(s, i, x)
  {
  }

  lemma TableStays(s: Fs, s': Fs, o: Owner, i: nat)
    requires Shape(s) && Extends(s, s', o) && i < |s.inodes|
    ensures s.inodes[i].addrs[NDIRECT] != 0 ==> s'.inodes[i].addrs[NDIRECT] == s.inodes[i].addrs[NDIRECT]
  {
    assert IsSlot(s, i, NDIRECT);
    if s.inodes[i].addrs[NDIRECT] != 0 {
      assert Addr(s, i, NDIRECT) == s.inodes[i].addrs[NDIRECT];
      assert Addr(s', i, NDIRECT) == s'.inodes[i].addrs[NDIRECT];
    }
  }

  // ---- writei as a whole ----

  /** After the first |data| bytes of a writei at off0: those bytes are in place, all other mapped
      bytes of all files are as in s0, and the inode changed only if the file is about to grow. */
  ghost predicate Progress(s0: Fs, s: Fs, o: Owner, i: nat, off0: nat, data: seq<bv8>) {
    && SameFiles(s0, s, o, i)
    && KeepsBytes(s0, s, i, off0, |data|) && HasBytes(s, i, off0, data)
    && (s.inodes == s0.inodes || s0.inodes[i].size < off0 + |data|)
  }

  lemma ProgressStart(s: Fs, o: Owner, i: nat, off0: nat)
    requires Shape(s) && Owned(s, o, {}, {}) && i < |s.inodes|
    ensures Progress(s, s, o, i, off0, [])
  {
  }

  lemma StillMapped(s0: Fs, s: Fs, o: Owner, i: nat, off0: nat, data: seq<bv8>, bn: nat)
    requires Progress(s0, s, o, i, off0, data) && Mapped(s0, i, bn)
    ensures Mapped(s, i, bn)
  {
    hide Mapped, Owned;
    var x: nat := bn * BSIZE;
    assert x / BSIZE == bn;
    if off0 <= x < off0 + |data| {
      assert ByteAt(s, i, x) == data[x - off0];
    } else {
      assert ByteAt(s, i, x) == ByteAt(s0, i, x);
    }
  }

  lemma ProgressStep(s0: Fs, s: Fs, s': Fs, o: Owner, o': Owner, i: nat, off0: nat, data: seq<bv8>, part: seq<bv8>)
    requires Progress(s0, s, o, i, off0, data) && AllMapped(s0) && part != []
    requires PartWritten(s, s', o', i, off0 + |data|, part)
    requires (off0 + |data|) / BSIZE < MAXFILE
    ensures Progress(s0, s', o', i, off0, data + part)
  {
    hide Mapped, Owned, ByteAt;
    var off := off0 + |data|;
    forall j, x: nat | 0 <= j < |s0.inodes| && Mapped(s0, j, x / BSIZE) && !(j == i && off0 <= x < off + |part|)
      ensures Mapped(s', j, x / BSIZE) && ByteAt(s', j, x) == ByteAt(s0, j, x)
    {
      assert Mapped(s, j, x / BSIZE) && ByteAt(s, j, x) == ByteAt(s0, j, x);
    }
    forall x: nat | off0 <= x < off + |part|
      ensures Mapped(s', i, x / BSIZE) && ByteAt(s', i, x) == (data + part)[x - off0]
    {
      if x < off { assert ByteAt(s, i, x) == data[x - off0] && Mapped(s, i, x / BSIZE); }
    }
    if !Mapped(s, i, off / BSIZE) {
      if off / BSIZE * BSIZE < s0.inodes[i].size {
        StillMapped(s0, s, o, i, off0, data, off / BSIZE);
      }
    }
  }

  function WithSize(s: Fs, i: nat, size: nat): Fs
    requires i < |s.inodes|
  {
    s.(inodes := s.inodes[i := s.inodes[i].(size := size)])
  }

  /** The size field plays no part in slots, bitmap or bytes. */
  lemma SizeIrrelevant(s: Fs, o: Owner, i: nat, size: nat)
    requires Shape(s) && Owned(s, o, {}, {}) && i < |s.inodes|
    ensures Shape(WithSize(s, i, size)) && Owned(WithSize(s, i, size), o, {}, {})
    ensures forall j, bn: nat :: 0 <= j < |s.inodes| ==> Mapped(WithSize(s, i, size), j, bn) == Mapped(s, j, bn)
    ensures forall j, x: nat :: 0 <= j < |s.inodes| ==> ByteAt(WithSize(s, i, size), j, x) == ByteAt(s, j, x)
  {
    var s' := WithSize(s, i, size);
    assert forall j, k :: IsSlot(s, j, k) ==> Addr(s', j, k) == Addr(s, j, k);
    forall b | b in o ensures OwnedAt(s', o, b, {}) {
      assert OwnedAt(s, o, b, {});
    }
    assert forall b :: 0 <= b < s.sb.size ==> (Used(s', b) <==> Used(s, b));
  }

  /** What a finished writei means for the contents of the files. */
  lemma FinishWrite(s0: Fs, s: Fs, o0: Owner, o: Owner, i: nat, off0: nat, data: seq<bv8>)
    requires Valid(s0, o0) && Progress(s0, s, o, i, off0, data) && off0 <= s0.inodes[i].size
    ensures var size := if off0 + |data| > s0.inodes[i].size then off0 + |data| else s0.inodes[i].size;
            var s' := WithSize(s, i, size);
            && Valid(s', o)
            && Contents(s', i) == Splice(Contents(s0, i), off0, data)
            && (forall j :: 0 <= j < |s0.inodes| && j != i ==> Contents(s', j) == Contents(s0, j))
  {
    hide Owned, ByteAt, Mapped, KeepsBytes, HasBytes;
    var size := if off0 + |data| > s0.inodes[i].size then off0 + |data| else s0.inodes[i].size;
    var s' := WithSize(s, i, size);
    SizeIrrelevant(s, o, i, size);
    forall j, x: nat | 0 <= j < |s0.inodes| && x < s0.inodes[j].size && !(j == i && off0 <= x < off0 + |data|)
      ensures ByteAt(s', j, x) == ByteAt(s0, j, x)
    {
      KeptByte(s0, s, o, i, off0, data, j, x);
    }
    forall x: nat | off0 <= x < off0 + |data| ensures ByteAt(s', i, x) == data[x - off0] {
      NewByte(s, i, off0, data, x);
    }
    FinishMapped(s0, s, o, i, off0, data);
  }

  lemma KeptByte(s0: Fs, s: Fs, o: Owner, i: nat, off0: nat, data: seq<bv8>, j: int, x: nat)
    requires Shape(s0) && AllMapped(s0) && Progress(s0, s, o, i, off0, data)
    requires 0 <= j < |s0.inodes| && x < s0.inodes[j].size && !(j == i && off0 <= x < off0 + |data|)
    ensures ByteAt(s, j, x) == ByteAt(s0, j, x)
  {
    hide Owned, ByteAt, Mapped;
    assert x / BSIZE * BSIZE <= x;
    assert Mapped(s0, j, x / BSIZE);
  }

  lemma NewByte(s: Fs, i: nat, off: nat, data: seq<bv8>, x: nat)
    requires Shape(s) && i < |s.inodes| && HasBytes(s, i, off, data) && off <= x < off + |data|
    ensures ByteAt(s, i, x) == data[x - off]
  {
    hide ByteAt, Mapped;
  }

  lemma FinishMapped(s0: Fs, s: Fs, o: Owner, i: nat, off0: nat, data: seq<bv8>)
    requires Shape(s0) && AllMapped(s0) && Progress(s0, s, o, i, off0, data) && off0 <= s0.inodes[i].size
    ensures forall j, bn: nat :: 0 <= j < |s0.inodes| && bn * BSIZE < s0.inodes[j].size ==> Mapped(s, j, bn)
    ensures forall bn: nat :: bn * BSIZE < off0 + |data| ==> Mapped(s, i, bn)
  {
    hide Owned, ByteAt, Mapped;
    forall j, bn: nat | 0 <= j < |s0.inodes| && bn * BSIZE < s0.inodes[j].size ensures Mapped(s, j, bn) {
      var x: nat := bn * BSIZE;
      assert x / BSIZE == bn && Mapped(s0, j, bn);
      if j == i { StillMapped(s0, s, o, i, off0, data, bn); }
      else { assert ByteAt(s, j, x) == ByteAt(s0, j, x); }
    }
    forall bn: nat | bn * BSIZE < off0 + |data| ensures Mapped(s, i, bn) {
      var x: nat := bn * BSIZE;
      assert x / BSIZE == bn;
      if x < off0 {
        assert Mapped(s0, i, bn);
        StillMapped(s0, s, o, i, off0, data, bn);
      } else {
        assert ByteAt(s, i, x) == data[x - off0];
      }
    }
  }

  // ---- How many blocks one writei logs ----

  /** What one bmap call may log: the new data block and its bitmap block, the indirect table,
      and the bitmap block of a new indirect table. */
  ghost function BmapLogs(s: Fs, s': Fs, ino: nat, bn: nat): set<nat>
    requires Shape(s) && Shape(s') && s'.sb == s.sb && ino < |s.inodes| && bn < MAXFILE
  {
    var a, t := Addr(s', ino, SlotOf(bn)), s'.inodes[ino].addrs[NDIRECT];
    (if Addr(s, ino, SlotOf(bn)) == 0 then {a, BBlock(s.sb, a)} else {})
    + (if t != 0 then {t} else {})
    + (if s.inodes[ino].addrs[NDIRECT] == 0 && t != 0 then {BBlock(s.sb, t)} else {})
  }

  /** D: data blocks written; T: bitmap blocks; t: the indirect table or 0.
      v blocks were visited, f of them fresh, q new indirect tables (0 or 1). */
  ghost predicate Budget(L0: set<nat>, L: set<nat>, D: set<nat>, T: set<nat>, t: nat, v: nat, f: nat, q: nat) {
    && L <= L0 + D + T + (if t != 0 then {t} else {})
    && |D| <= v && |T| <= f + q && q <= 1 && (q == 1 ==> t != 0)
  }

  lemma BudgetStep(L0: set<nat>, L: set<nat>, D: set<nat>, T: set<nat>, t: nat, v: nat, f: nat, q: nat,
                   L': set<nat>, a: nat, ba: nat, isNew: bool, t': nat, bt: nat)
    requires Budget(L0, L, D, T, t, v, f, q) && (t != 0 ==> t' == t)
    requires L' <= L + {a} + ((if isNew then {a, ba} else {}) + (if t' != 0 then {t'} else {})
                              + (if t == 0 && t' != 0 then {bt} else {}))
    ensures var D' := D + {a};
            var T' := T + (if isNew then {ba} else {}) + (if t == 0 && t' != 0 then {bt} else {});
            Budget(L0, L', D', T', t', v + 1, f + if isNew then 1 else 0, q + if t == 0 && t' != 0 then 1 else 0)
  {
    var N, B := if isNew then {ba} else {}, if t == 0 && t' != 0 then {bt} else {};
    var W, W' := if t != 0 then {t} else {}, if t' != 0 then {t'} else {};
    SizeAdd(D, a);
    SizeAddIf(T, isNew, ba);
    SizeAddIf(T + N, t == 0 && t' != 0, bt);
    BudgetSets(L0, L, D, T, W, L', a, ba, isNew, N, W', B);
  }

  lemma SizeAddIf(s: set<nat>, c: bool, x: nat)
    ensures |s + (if c then {x} else {})| <= |s| + if c then 1 else 0
  {
    SizeAdd(s, x);
  }

  lemma BudgetSets(L0: set<nat>, L: set<nat>, D: set<nat>, T: set<nat>, W: set<nat>, L': set<nat>, a: nat, ba: nat,
                   isNew: bool, N: set<nat>, W': set<nat>, B: set<nat>)
    requires L <= L0 + D + T + W && W <= W' && N == (if isNew then {ba} else {})
    requires L' <= L + {a} + ((if isNew then {a, ba} else {}) + W' + B)
    ensures L' <= L0 + (D + {a}) + (T + N + B) + W'
  {
    forall x | x in L' ensures x in L0 + (D + {a}) + (T + N + B) + W' {
      assert x in L || x == a || (isNew && x == ba) || x in W' || x in B;
    }
  }

  lemma SizeAdd<T>(s: set<T>, x: T)
    ensures |s + {x}| <= |s| + 1 && s + {} == s
  {
    if x in s { assert s + {x} == s; } else { assert |s + {x}| == |s| + 1; }
  }

  lemma SizeUnion<T>(a: set<T>, b: set<T>)
    ensures |a + b| <= |a| + |b|
  {
    assert |a + b| == |a| + |b| - |a * b|;
  }

  /** The bound: two blocks per file block touched, less one if the first block was there already,
      plus the indirect table, its bitmap block and the inode block. */
  function WriteBudget(off: nat, n: nat): nat {
    if n == 0 then 0 else 2 * Span(off, n) + 3 - if off % BSIZE != 0 then 1 else 0
  }

  lemma BudgetTotal(L0: set<nat>, L: set<nat>, D: set<nat>, T: set<nat>, t: nat, v: nat, f: nat, q: nat, ib: nat)
    requires Budget(L0, L, D, T, t, v, f, q)
    ensures |L - L0| <= v + f + 2 && |L + {ib} - L0| <= v + f + 3
  {
    var X := if t != 0 then {t} else {};
    var all := D + T + X + {ib};
    SubsetSize(L - L0, D + T + X);
    assert L + {ib} - L0 <= all;
    SubsetSize(L + {ib} - L0, all);
    SizeAdd(D + T + X, ib);
    SizeUnion(D + T, X);
    SizeUnion(D, T);
  }

  lemma SpanStep(off0: nat, tot: nat, m: nat)
    requires m > 0 && (off0 + tot) % BSIZE + m <= BSIZE && (tot == 0 || (off0 + tot) % BSIZE == 0)
    ensures Span(off0, tot + m) == Span(off0, tot) + 1
  {
  }

  lemma BudgetStart(L0: set<nat>, t: nat)
    ensures Budget(L0, L0, {}, {}, t, 0, 0, 0)
  {
  }

  lemma PartGives(s: Fs, s': Fs, o': Owner, i: nat, off: nat, data: seq<bv8>)
    requires PartWritten(s, s', o', i, off, data)
    ensures Shape(s) && Shape(s') && s'.sb == s.sb && i < |s.inodes|
    ensures s.inodes[i].addrs[NDIRECT] != 0 ==> s'.inodes[i].addrs[NDIRECT] == s.inodes[i].addrs[NDIRECT]
  {
  }

  lemma BudgetPart(s: Fs, s': Fs, i: nat, bn: nat, L0: set<nat>, L: set<nat>, L': set<nat>,
                   D: set<nat>, T: set<nat>, v: nat, f: nat, q: nat)
    returns (D': set<nat>, T': set<nat>, f': nat, q': nat)
    requires Shape(s) && Shape(s') && s'.sb == s.sb && i < |s.inodes| && bn < MAXFILE
    requires s.inodes[i].addrs[NDIRECT] != 0 ==> s'.inodes[i].addrs[NDIRECT] == s.inodes[i].addrs[NDIRECT]
    requires Budget(L0, L, D, T, s.inodes[i].addrs[NDIRECT], v, f, q)
    requires L' <= L + {Addr(s', i, SlotOf(bn))} + BmapLogs(s, s', i, bn)
    ensures Budget(L0, L', D', T', s'.inodes[i].addrs[NDIRECT], v + 1, f', q')
    ensures f' == f + if Addr(s, i, SlotOf(bn)) == 0 then 1 else 0
  {
    hide Budget, Addr, GoodSuper;
    var k := SlotOf(bn);
    var a, isNew := Addr(s', i, k), Addr(s, i, k) == 0;
    var t, t' := s.inodes[i].addrs[NDIRECT], s'.inodes[i].addrs[NDIRECT];
    BudgetStep(L0, L, D, T, t, v, f, q, L', a, BBlock(s.sb, a), isNew, t', BBlock(s.sb, t'));
    D' := D + {a};
    T' := T + (if isNew then {BBlock(s.sb, a)} else {}) + (if t == 0 && t' != 0 then {BBlock(s.sb, t')} else {});
    f' := f + if isNew then 1 else 0;
    q' := q + if t == 0 && t' != 0 then 1 else 0;
  }

  /** A write that starts inside a block finds that block mapped, since off0 <= size. */
  lemma FirstIsThere(s0: Fs, i: nat, off0: nat)
    requires Shape(s0) && AllMapped(s0) && i < |s0.inodes| && off0 <= s0.inodes[i].size && off0 % BSIZE != 0
    ensures off0 / BSIZE < MAXFILE && Addr(s0, i, SlotOf(off0 / BSIZE)) != 0
  {
    assert off0 / BSIZE * BSIZE < s0.inodes[i].size;
    assert Mapped(s0, i, off0 / BSIZE);
  }

  lemma BudgetBound(L0: set<nat>, L: set<nat>, ib: nat, v: nat, f: nat, off0: nat, n: nat)
    requires |L - L0| <= v + f + 2 && |L + {ib} - L0| <= v + f + 3 && v == Span(off0, n)
    requires f <= v && (n > 0 && off0 % BSIZE != 0 ==> f < v)
    requires n == 0 ==> L == L0
    ensures n == 0 ==> L - L0 == {}
    ensures n > 0 ==> |L - L0| < WriteBudget(off0, n) && |L + {ib} - L0| <= WriteBudget(off0, n)
  {
  }

  lemma ProgressGives(s0: Fs, s: Fs, o: Owner, i: nat, off0: nat, data: seq<bv8>)
    requires Progress(s0, s, o, i, off0, data)
    ensures Shape(s) && Owned(s, o, {}, {}) && i < |s.inodes| == |s0.inodes| && s.sb == s0.sb
    ensures s.inodes[i].size == s0.inodes[i].size
    ensures s.inodes == s0.inodes || s0.inodes[i].size < off0 + |data|
    ensures s.inodes == s0.inodes[i := s.inodes[i]]
  {
  }

  // ---- readi ----

  lemma ReadPart(s: Fs, o: Owner, i: nat, off: nat, m: nat)
    requires Valid(s, o) && i < |s.inodes| && m > 0 && off + m <= s.inodes[i].size && off % BSIZE + m <= BSIZE
    ensures off / BSIZE < MAXFILE && 0 != Addr(s, i, SlotOf(off / BSIZE)) < |s.blocks|
    ensures s.blocks[Addr(s, i, SlotOf(off / BSIZE))][off % BSIZE..off % BSIZE + m] == Contents(s, i)[off..off + m]
  {
    hide Owned, Addr;
    assert off / BSIZE * BSIZE <= off;
    assert Mapped(s, i, off / BSIZE);
    var part := s.blocks[Addr(s, i, SlotOf(off / BSIZE))][off % BSIZE..off % BSIZE + m];
    forall x | 0 <= x < m ensures part[x] == Contents(s, i)[off + x] {
      assert (off + x) / BSIZE == off / BSIZE && (off + x) % BSIZE == off % BSIZE + x;
    }
  }

  // ---- filewrite ----

  lemma SpliceSplice(c: seq<bv8>, off: nat, a: seq<bv8>, b: seq<bv8>)
    requires off <= |c|
    ensures off + |a| <= |Splice(c, off, a)|
    ensures Splice(Splice(c, off, a), off + |a|, b) == Splice(c, off, a + b)
  {
  }

  /** The largest piece filewrite hands to writei in one transaction. */
  const CHUNK: nat := ((MAXOPBLOCKS - 1 - 1 - 2) / 2) * 512

  lemma ChunkFits(off: nat, n: nat)
    requires n <= CHUNK
    ensures WriteBudget(off, n) <= MAXOPBLOCKS
    ensures off % BSIZE == 0 ==> WriteBudget(off, n) < MAXOPBLOCKS
  {
  }

  /** filewrite stops after whole chunks, or at the end. */
  predicate WholeChunks(i: int, n: int) {
    i % CHUNK == 0 || i == n
  }

  lemma NextChunk(off0: nat, i: nat, n: nat)
    requires WholeChunks(i, n) && i < n
    ensures off0 % BSIZE == 0 ==> (off0 + i) % BSIZE == 0
    ensures WholeChunks(if n - i > CHUNK then i + CHUNK else n, n)
  {
    var q, a := i / CHUNK, off0 / BSIZE;
    assert i == CHUNK * q && CHUNK == 3 * BSIZE;
    MultipleOf(q + 1);
    assert i + CHUNK == CHUNK * (q + 1);
    if off0 % BSIZE == 0 {
      MultipleOf(a + 3 * q);
      assert off0 + i == BSIZE * (a + 3 * q);
    }
  }

  lemma {:induction false} MultipleOf(k: nat)
    ensures (BSIZE * k) % BSIZE == 0 && (CHUNK * k) % CHUNK == 0
  {
    if k > 0 {
      MultipleOf(k - 1);
      assert BSIZE * k == BSIZE * (k - 1) + BSIZE && CHUNK * k == CHUNK * (k - 1) + CHUNK;
    }
  }

  // ---- itrunc ----

  function Without(o: Owner, i: int, gone: set<int>): Owner {
    map b | b in o && !(o[b].0 == i && o[b].1 in gone) :: o[b]
  }

  /** itrunc on inode i has freed the blocks of the slots in gone; dead slots still name one. */
  ghost predicate Truncating(s0: Fs, s: Fs, o0: Owner, i: nat, gone: set<int>, dead: set<(int, int)>) {
    && Shape(s0) && Shape(s) && s.sb == s0.sb && i < |s0.inodes| && Owned(s, Without(o0, i, gone), {}, dead)
    && (forall j :: 0 <= j < |s0.inodes| && j != i ==> s.inodes[j] == s0.inodes[j])
    && (forall c :: s.sb.datastart <= c < s.sb.size ==> s.blocks[c] == s0.blocks[c])
  }

  /** The bitmap blocks that hold the bits of inode i's blocks. */
  ghost function FreedMaps(sb: Super, o: Owner, i: nat): set<nat> {
    set b | b in o && o[b].0 == i :: BBlock(sb, b)
  }

  lemma {:induction false} FewInRange(s: set<nat>, from: nat, n: nat)
    requires forall x :: x in s ==> from <= x < from + n
    ensures |s| <= n
    decreases n
  {
    if n > 0 {
      FewInRange(s - {from + n - 1}, from, n - 1);
    } else {
      assert s == {};
    }
  }

  /** itrunc logs at most every bitmap block and the inode's block: within the budget of one call on a
      disk of at most MAXOPBLOCKS - 1 bitmap blocks. */
  lemma TruncBudget(sb: Super, o: Owner, i: nat)
    requires forall b :: b in o ==> b < sb.size
    ensures |FreedMaps(sb, o, i)| <= (sb.size + BPB - 1) / BPB
    ensures sb.size <= (MAXOPBLOCKS - 1) * BPB ==> |FreedMaps(sb, o, i) + {IBlock(sb, i)}| <= MAXOPBLOCKS
  {
    FewInRange(FreedMaps(sb, o, i), sb.bmapstart, (sb.size + BPB - 1) / BPB);
  }

  lemma TruncStart(s: Fs, o: Owner, i: nat)
    requires Shape(s) && Owned(s, o, {}, {}) && i < |s.inodes|
    ensures Truncating(s, s, o, i, {}, {})
  {
    assert Without(o, i, {}) == o;
  }

  lemma OnlyOwner(s: Fs, o: Owner, dead: set<(int, int)>, i: nat, k: int)
    requires Shape(s) && Owned(s, o, {}, dead) && IsSlot(s, i, k) && (i as int, k) !in dead && Addr(s, i, k) != 0
    ensures Addr(s, i, k) in o
    ensures forall c :: c in o ==> (o[c] == (i as int, k) <==> c == Addr(s, i, k))
  {
    forall c | c in o ensures o[c] == (i as int, k) <==> c == Addr(s, i, k) {
      assert OwnedAt(s, o, c, dead);
    }
  }

  lemma TruncFree(s0: Fs, s: Fs, o0: Owner, i: nat, gone: set<int>, dead: set<(int, int)>, k: int)
    requires Truncating(s0, s, o0, i, gone, dead) && 0 <= k < SLOTS && (i as int, k) !in dead && k !in gone
    requires forall d :: d in dead ==> d.1 != NDIRECT
    requires Addr(s, i, k) != 0
    ensures Addr(s, i, k) < s.sb.size && Used(s, Addr(s, i, k)) && BBlock(s.sb, Addr(s, i, k)) in FreedMaps(s.sb, o0, i)
    ensures Truncating(s0, MarkFree(s, Addr(s, i, k)), o0, i, gone + {k}, dead + {(i as int, k)})
    ensures forall l :: 0 <= l < SLOTS ==> Addr(MarkFree(s, Addr(s, i, k)), i, l) == Addr(s, i, l)
    ensures MarkFree(s, Addr(s, i, k)).inodes == s.inodes
  {
    hide Owned, OwnedAt;
    var o, b := Without(o0, i, gone), Addr(s, i, k);
    assert IsSlot(s, i, k);
    FreeKeepsOwned(s, o, dead, i, k);
    OnlyOwner(s, o, dead, i, k);
    assert Without(o0, i, gone + {k}) == o - {b};
  }

  /** An empty slot counts as gone and dead. */
  lemma TruncSkip(s0: Fs, s: Fs, o0: Owner, i: nat, gone: set<int>, dead: set<(int, int)>, k: int, die: bool)
    requires Truncating(s0, s, o0, i, gone, dead) && 0 <= k < SLOTS && Addr(s, i, k) == 0
    ensures Truncating(s0, s, o0, i, gone + {k}, if die then dead + {(i as int, k)} else dead)
  {
    var o := Without(o0, i, gone);
    forall c | c in o ensures o[c] != (i as int, k) && OwnedAt(s, o, c, dead + {(i as int, k)}) {
      assert OwnedAt(s, o, c, dead);
    }
    assert Without(o0, i, gone + {k}) == o;
  }

  lemma TruncClear(s0: Fs, s: Fs, o0: Owner, i: nat, gone: set<int>, dead: set<(int, int)>, k: nat)
    requires Truncating(s0, s, o0, i, gone, dead) && k < ADDRS && (i as int, k as int) in dead
    requires k != NDIRECT ==> dead == {(i as int, k as int)}
    requires k == NDIRECT ==> forall l :: ADDRS <= l < SLOTS && Addr(s, i, l) != 0 ==> (i as int, l) in dead
    requires k == NDIRECT ==> forall d :: d in dead ==> d.0 == i && NDIRECT <= d.1
    ensures Truncating(s0, SetAddr(s, i, k, 0), o0, i, gone, {})
  {
    ClearKeepsOwned(s, Without(o0, i, gone), dead, i, k);
    assert k != NDIRECT ==> dead - {(i as int, k as int)} == {};
  }

  /** After itrunc: inode i owns nothing, exactly its blocks were freed, other files are intact. */
  lemma TruncDone(s0: Fs, s: Fs, o0: Owner, i: nat, gone: set<int>)
    requires Valid(s0, o0) && Truncating(s0, s, o0, i, gone, {}) && (forall k :: 0 <= k < SLOTS ==> k in gone)
    ensures var s', o' := WithSize(s, i, 0), Without(o0, i, gone);
            && Valid(s', o')
            && (forall b :: b in o' <==> b in o0 && o0[b].0 != i)
            && (forall b :: s.sb.datastart <= b < s.sb.size ==>
                  (Used(s', b) <==> Used(s0, b) && !(b in o0 && o0[b].0 == i)))
            && (forall j :: 0 <= j < |s0.inodes| && j != i ==> Contents(s', j) == Contents(s0, j))
  {
    var o' := Without(o0, i, gone);
    SizeIrrelevant(s, o', i, 0);
    forall b | b in o0 && o0[b].0 == i ensures b !in o' {
      assert OwnedAt(s0, o0, b, {});
    }
    OthersIntact(s0, s, o0, i, gone);
    var s' := WithSize(s, i, 0);
    assert Owned(s', o', {}, {});
    forall b | s.sb.datastart <= b < s.sb.size
      ensures Used(s', b) <==> Used(s0, b) && !(b in o0 && o0[b].0 == i)
    {
      assert Used(s', b) <==> b in o';
      assert Used(s0, b) <==> b in o0;
    }
  }

  lemma OthersIntact(s0: Fs, s: Fs, o0: Owner, i: nat, gone: set<int>)
    requires Valid(s0, o0) && Truncating(s0, s, o0, i, gone, {})
    ensures forall j, bn: nat :: 0 <= j < |s0.inodes| && j != i && Mapped(s0, j, bn) ==> Mapped(s, j, bn)
    ensures forall j, x: nat :: 0 <= j < |s0.inodes| && j != i && Mapped(s0, j, x / BSIZE) ==>
              ByteAt(s, j, x) == ByteAt(s0, j, x)
  {
    forall j, bn: nat | 0 <= j < |s0.inodes| && j != i && Mapped(s0, j, bn)
      ensures Mapped(s, j, bn) && Addr(s, j, SlotOf(bn)) == Addr(s0, j, SlotOf(bn)) >= s.sb.datastart
    {
      if s0.inodes[j].addrs[NDIRECT] != 0 { TableOwned(s0, o0, {}, {}, j); }
      assert IsSlot(s0, j, SlotOf(bn));
      assert OwnedAt(s0, o0, Addr(s0, j, SlotOf(bn)), {});
    }
  }

  /** The first j slots of the indirect table. */
  ghost function TableSlotSet(j: nat): (r: set<int>)
    ensures forall x :: x in r <==> ADDRS <= x < ADDRS + j
  {
    if j == 0 then {} else TableSlotSet(j - 1) + {(ADDRS + j - 1) as int}
  }

  ghost function TableDead(i: nat, j: nat): (r: set<(int, int)>)
    ensures forall d :: d in r <==> d.0 == i && ADDRS <= d.1 < ADDRS + j
  {
    if j == 0 then {} else TableDead(i, j - 1) + {(i as int, (ADDRS + j - 1) as int)}
  }

  lemma TruncGives(s0: Fs, s: Fs, o0: Owner, i: nat, gone: set<int>, dead: set<(int, int)>)
    requires Truncating(s0, s, o0, i, gone, dead)
    ensures Shape(s) && s.sb == s0.sb && |s.inodes| == |s0.inodes|
  {
  }

  lemma TableGrows(i: nat, gone: set<int>, j: nat)
    ensures gone + TableSlotSet(j + 1) == gone + TableSlotSet(j) + {(ADDRS + j) as int}
    ensures TableDead(i, j + 1) == TableDead(i, j) + {(i as int, (ADDRS + j) as int)}
    ensures forall d :: d in TableDead(i, j) ==> d.1 != NDIRECT
    ensures (i as int, (ADDRS + j) as int) !in TableDead(i, j)
  {
  }

  /** Without an indirect table there is nothing more to free. */
  lemma TruncNoTable(s0: Fs, s: Fs, o0: Owner, i: nat, gone: set<int>)
    requires Truncating(s0, s, o0, i, gone, {}) && s.inodes[i].addrs[NDIRECT] == 0
    ensures Truncating(s0, s, o0, i, gone + TableSlotSet(NINDIRECT) + {NDIRECT as int}, {})
  {
    var o, more := Without(o0, i, gone), TableSlotSet(NINDIRECT) + {NDIRECT as int};
    assert forall k :: k in more ==> IsSlot(s, i, k) && Addr(s, i, k) == 0;
    forall c | c in o ensures !(o[c].0 == i && o[c].1 in more) {
      assert OwnedAt(s, o, c, {});
    }
    assert Without(o0, i, gone + TableSlotSet(NINDIRECT) + {NDIRECT as int}) == o;
  }

  lemma TruncTableIn(s0: Fs, s: Fs, o0: Owner, i: nat, gone: set<int>)
    requires Truncating(s0, s, o0, i, gone, {}) && s.inodes[i].addrs[NDIRECT] != 0
    ensures Shape(s) && s.inodes[i].addrs[NDIRECT] < |s.blocks|
    ensures forall j :: 0 <= j < NINDIRECT ==> Addr(s, i, ADDRS + j) == Word(s.blocks[s.inodes[i].addrs[NDIRECT]], j)
    ensures Truncating(s0, s, o0, i, gone + TableSlotSet(0), TableDead(i, 0))
  {
    TableOwned(s, Without(o0, i, gone), {}, {}, i);
    assert gone + TableSlotSet(0) == gone && TableDead(i, 0) == {};
  }

  lemma FreeCovers(s: Fs, b: nat, logged: set<nat>)
    requires BBlock(s.sb, b) < |s.blocks|
    ensures Covers(s.blocks, MarkFree(s, b).blocks, logged, logged + {BBlock(s.sb, b)})
  {
  }

  lemma WriteFails(c0: seq<bv8>, c: seq<bv8>, off0: nat, src: seq<bv8>, i: nat)
    requires i <= |src| && (i == 0 ==> c == c0) && (i > 0 ==> off0 <= |c0| && c == Splice(c0, off0, src[..i]))
    ensures off0 + i > |c| ==> i == 0 && off0 > |c0|
  {
  }

  lemma JoinChunks(c0: seq<bv8>, c: seq<bv8>, off0: nat, src: seq<bv8>, i: nat, n1: nat)
    requires i + n1 <= |src| && (i == 0 ==> c == c0) && (i > 0 ==> off0 <= |c0| && c == Splice(c0, off0, src[..i]))
    requires off0 + i <= |c|
    ensures off0 <= |c0|
    ensures Splice(c, off0 + i, src[i..][..n1]) == Splice(c0, off0, src[..i + n1])
  {
    assert src[..i] + src[i..][..n1] == src[..i + n1];
    if i > 0 { SpliceSplice(c0, off0, src[..i], src[i..][..n1]); }
  }
}
