/** Inodes, their block slots, and who owns which disk block. */
module FsState {
  import opened BlockData

  /** size: blocks on the disk; datastart: the first block that is not metadata. */
  datatype Super = Super(size: nat, ninodes: nat, inodestart: nat, bmapstart: nat, datastart: nat)

  datatype Inode = Inode(size: nat, addrs: seq<nat>)

  datatype Fs = Fs(sb: Super, blocks: seq<Block>, inodes: seq<Inode>)

  const ADDRS: nat := NDIRECT + 1
  const SLOTS: nat := ADDRS + NINDIRECT

  function BBlock(sb: Super, b: nat): nat { b / BPB + sb.bmapstart }

  /** The bits of BPB blocks in a row are in one bitmap block. */
  lemma SameBitmap(sb: Super, b: nat, bi: nat)
    requires b % BPB == 0 && bi < BPB
    ensures BBlock(sb, b + bi) == BBlock(sb, b) && (b + bi) % BPB == bi
  {
  }

  function IBlock(sb: Super, i: nat): nat { i / IPB + sb.inodestart }

  ghost predicate GoodSuper(sb: Super) {
    && sb.size < 0x1_0000_0000
    && (forall i: nat :: i < sb.ninodes ==> IBlock(sb, i) < sb.bmapstart)
    && (forall b: nat :: b < sb.size ==> BBlock(sb, b) < sb.datastart)
    && 0 < sb.datastart <= sb.size
  }

  ghost predicate Shape(s: Fs) {
    && GoodSuper(s.sb) && |s.blocks| == s.sb.size && |s.inodes| == s.sb.ninodes
    && forall i :: 0 <= i < |s.inodes| ==> |s.inodes[i].addrs| == ADDRS
  }

  // ---- Slots: 0..11 direct, 12 the indirect table, 13.. the entries of that table ----

  function SlotOf(bn: nat): (k: nat)
    ensures k != NDIRECT && (bn < MAXFILE ==> k < SLOTS)
  {
    if bn < NDIRECT then bn else bn + 1
  }

  ghost predicate IsSlot(s: Fs, i: int, k: int) {
    0 <= i < |s.inodes| && 0 <= k < SLOTS
  }

  /** The block number stored in slot k of inode i; 0 means none. */
  ghost function Addr(s: Fs, i: int, k: int): nat
    requires Shape(s) && IsSlot(s, i, k)
  {
    var addrs := s.inodes[i].addrs;
    if k < ADDRS then addrs[k]
    else if addrs[NDIRECT] == 0 || addrs[NDIRECT] >= |s.blocks| then 0
    else Word(s.blocks[addrs[NDIRECT]], k - ADDRS)
  }

  predicate Used(s: Fs, b: nat)
    requires b < s.sb.size && BBlock(s.sb, b) < |s.blocks|
  {
    Bit(s.blocks[BBlock(s.sb, b)], b % BPB)
  }

  // ---- Ownership ----

  type Owner = map<nat, (int, int)>

  /** owner names the one slot that holds each allocated data block.  loose blocks are allocated
      and not yet stored in a slot; dead slots still hold a number whose block was freed. */
  ghost predicate Owned(s: Fs, owner: Owner, loose: set<nat>, dead: set<(int, int)>)
    requires Shape(s)
  {
    && (forall i, k :: IsSlot(s, i, k) && Addr(s, i, k) != 0 && (i, k) !in dead ==>
          Addr(s, i, k) in owner && owner[Addr(s, i, k)] == (i, k))
    && (forall b :: b in owner ==> OwnedAt(s, owner, b, dead))
    && (forall b :: 0 <= b < s.sb.size ==>
          (Used(s, b) <==> b < s.sb.datastart || b in owner || b in loose))
    && (forall b :: b in loose ==> b !in owner && s.sb.datastart <= b < s.sb.size)
  }

  ghost predicate OwnedAt(s: Fs, owner: Owner, b: nat, dead: set<(int, int)>)
    requires Shape(s) && b in owner
  {
    && s.sb.datastart <= b < s.sb.size
    && IsSlot(s, owner[b].0, owner[b].1) && owner[b] !in dead
    && Addr(s, owner[b].0, owner[b].1) == b
  }

  /** The bitmap and the slots agree: a data block is marked used exactly when some slot of some
      inode holds it, and then only that one. */
  ghost predicate BitmapExact(s: Fs)
    requires Shape(s)
  {
    && (forall b :: s.sb.datastart <= b < s.sb.size ==>
          (Used(s, b) <==> exists i, k :: IsSlot(s, i, k) && Addr(s, i, k) == b))
    && (forall i, k, j, l :: IsSlot(s, i, k) && IsSlot(s, j, l) && Addr(s, i, k) == Addr(s, j, l) != 0 ==>
          i == j && k == l)
    && (forall i, k :: IsSlot(s, i, k) && Addr(s, i, k) != 0 ==>
          s.sb.datastart <= Addr(s, i, k) < s.sb.size)
  }

  lemma OwnedIsExact(s: Fs, owner: Owner)
    requires Shape(s) && Owned(s, owner, {}, {})
    ensures BitmapExact(s)
  {
    forall b | s.sb.datastart <= b < s.sb.size
      ensures Used(s, b) <==> exists i, k :: IsSlot(s, i, k) && Addr(s, i, k) == b
    {
      if Used(s, b) {
        assert OwnedAt(s, owner, b, {});
        assert IsSlot(s, owner[b].0, owner[b].1) && Addr(s, owner[b].0, owner[b].1) == b;
      }
    }
    forall i, k | IsSlot(s, i, k) && Addr(s, i, k) != 0
      ensures s.sb.datastart <= Addr(s, i, k) < s.sb.size
    {
      assert OwnedAt(s, owner, Addr(s, i, k), {});
    }
  }

  // ---- File contents ----

  ghost predicate Mapped(s: Fs, i: int, bn: nat)
    requires Shape(s) && 0 <= i < |s.inodes|
  {
    bn < MAXFILE && 0 != Addr(s, i, SlotOf(bn)) < s.sb.size
  }

  ghost function ByteAt(s: Fs, i: int, off: nat): bv8
    requires Shape(s) && 0 <= i < |s.inodes|
  {
    if Mapped(s, i, off / BSIZE) then s.blocks[Addr(s, i, SlotOf(off / BSIZE))][off % BSIZE] else 0
  }

  /** Every block below the size of a file is mapped. */
  ghost predicate AllMapped(s: Fs)
    requires Shape(s)
  {
    forall i, bn: nat :: 0 <= i < |s.inodes| && bn * BSIZE < s.inodes[i].size ==> Mapped(s, i, bn)
  }

  ghost function Contents(s: Fs, i: int): (c: seq<bv8>)
    requires Shape(s) && 0 <= i < |s.inodes|
    ensures |c| == s.inodes[i].size
  {
    seq(s.inodes[i].size, x requires 0 <= x => ByteAt(s, i, x))
  }

  ghost predicate Valid(s: Fs, owner: Owner) {
    Shape(s) && Owned(s, owner, {}, {}) && AllMapped(s)
  }

  /** A file system as mkfs leaves it, before any file has a block. */
  lemma EmptyValid(s: Fs)
    requires Shape(s)
    requires forall i, k :: 0 <= i < |s.inodes| && 0 <= k < ADDRS ==> s.inodes[i].addrs[k] == 0
    requires forall i :: 0 <= i < |s.inodes| ==> s.inodes[i].size == 0
    requires forall b :: 0 <= b < s.sb.size ==> (Used(s, b) <==> b < s.sb.datastart)
    ensures Valid(s, map[]) && BitmapExact(s)
  {
    assert forall i, k :: IsSlot(s, i, k) ==> Addr(s, i, k) == 0;
    OwnedIsExact(s, map[]);
  }

  // ---- The state changes of balloc, bfree, bmap and writei ----

  function PutBlock(s: Fs, b: nat, v: Block): Fs
    requires b < |s.blocks|
  {
    s.(blocks := s.blocks[b := v])
  }

  function MarkUsed(s: Fs, b: nat): Fs
    requires BBlock(s.sb, b) < |s.blocks|
  {
    PutBlock(s, BBlock(s.sb, b), SetBit(s.blocks[BBlock(s.sb, b)], b % BPB))
  }

  function MarkFree(s: Fs, b: nat): Fs
    requires BBlock(s.sb, b) < |s.blocks|
  {
    PutBlock(s, BBlock(s.sb, b), ClearBit(s.blocks[BBlock(s.sb, b)], b % BPB))
  }

  function Alloc(s: Fs, b: nat): Fs
    requires BBlock(s.sb, b) < |s.blocks| && b < |s.blocks|
  {
    PutBlock(MarkUsed(s, b), b, Zeros(BSIZE))
  }

  function SetAddr(s: Fs, i: nat, k: nat, b: nat): Fs
    requires i < |s.inodes| && k < |s.inodes[i].addrs|
  {
    s.(inodes := s.inodes[i := s.inodes[i].(addrs := s.inodes[i].addrs[k := b])])
  }

  // ---- How ownership moves ----

  lemma BitmapBits(s: Fs, b: nat, c: nat)
    requires Shape(s) && b < s.sb.size && c < s.sb.size && BBlock(s.sb, b) == BBlock(s.sb, c) && b != c
    ensures b % BPB != c % BPB
  {
  }

  lemma UsedAfterMark(s: Fs, b: nat, c: nat)
    requires Shape(s) && b < s.sb.size && c < s.sb.size
    ensures Used(MarkUsed(s, b), c) <==> c == b || Used(s, c)
    ensures Used(MarkFree(s, b), c) <==> c != b && Used(s, c)
  {
    if BBlock(s.sb, b) == BBlock(s.sb, c) && b != c { BitmapBits(s, b, c); }
    BitAt(s.blocks[BBlock(s.sb, b)], b % BPB, c % BPB);
  }

  /** Changing blocks that are nobody's indirect table leaves every slot as it was. */
  lemma SlotsKept(s: Fs, s': Fs)
    requires Shape(s) && Shape(s') && s'.sb == s.sb && s'.inodes == s.inodes
    requires forall i :: 0 <= i < |s.inodes| && 0 < s.inodes[i].addrs[NDIRECT] < |s.blocks| ==>
      s'.blocks[s.inodes[i].addrs[NDIRECT]] == s.blocks[s.inodes[i].addrs[NDIRECT]]
    ensures forall i, k :: IsSlot(s, i, k) ==> Addr(s', i, k) == Addr(s, i, k)
  {
  }

  /** A live indirect table is an owned data block. */
  lemma TableOwned(s: Fs, owner: Owner, loose: set<nat>, dead: set<(int, int)>, i: int)
    requires Shape(s) && Owned(s, owner, loose, dead) && 0 <= i < |s.inodes|
    requires (i, NDIRECT) !in dead && s.inodes[i].addrs[NDIRECT] != 0
    ensures var t := s.inodes[i].addrs[NDIRECT];
            t in owner && owner[t] == (i, NDIRECT) && s.sb.datastart <= t < s.sb.size
  {
    assert IsSlot(s, i, NDIRECT) && Addr(s, i, NDIRECT) != 0;
    assert OwnedAt(s, owner, s.inodes[i].addrs[NDIRECT], dead);
  }

  /** Every slot that was in use keeps its block, and every data block keeps its bytes. */
  ghost predicate Extends(s: Fs, s': Fs, owner: Owner)
    requires Shape(s)
  {
    && Shape(s') && s'.sb == s.sb
    && (forall i :: 0 <= i < |s.inodes| ==> s'.inodes[i].size == s.inodes[i].size)
    && (forall i, k :: IsSlot(s, i, k) && Addr(s, i, k) != 0 ==> Addr(s', i, k) == Addr(s, i, k))
    && (forall b :: b in owner && owner[b].1 != NDIRECT && b < |s.blocks| ==> s'.blocks[b] == s.blocks[b])
  }

  lemma AllocKeepsOwned(s: Fs, owner: Owner, b: nat)
    requires Shape(s) && Owned(s, owner, {}, {}) && b < s.sb.size && !Used(s, b)
    ensures Shape(Alloc(s, b)) && Owned(Alloc(s, b), owner, {b}, {})
    ensures b != 0 && s.sb.datastart <= b && b !in owner
    ensures forall i, k :: IsSlot(s, i, k) ==> Addr(Alloc(s, b), i, k) == Addr(s, i, k)
    ensures Extends(s, Alloc(s, b), owner)
  {
    var s' := Alloc(s, b);
    assert BBlock(s.sb, b) < s.sb.datastart;
    forall i | 0 <= i < |s.inodes| && 0 < s.inodes[i].addrs[NDIRECT] < |s.blocks|
      ensures s'.blocks[s.inodes[i].addrs[NDIRECT]] == s.blocks[s.inodes[i].addrs[NDIRECT]]
    {
      TableOwned(s, owner, {}, {}, i);
    }
    SlotsKept(s, s');
    AllocUsed(s, owner, b);
    forall c | c in owner ensures OwnedAt(s', owner, c, {}) && s'.blocks[c] == s.blocks[c] {
      assert OwnedAt(s, owner, c, {});
    }
  }

  lemma AllocUsed(s: Fs, owner: Owner, b: nat)
    requires Shape(s) && Owned(s, owner, {}, {}) && b < s.sb.size && s.sb.datastart <= b && !Used(s, b)
    ensures Shape(Alloc(s, b))
    ensures forall c :: 0 <= c < s.sb.size ==> (Used(Alloc(s, b), c) <==> c < s.sb.datastart || c in owner || c == b)
  {
    hide OwnedAt, Addr;
    forall c | 0 <= c < s.sb.size ensures Used(Alloc(s, b), c) <==> c < s.sb.datastart || c in owner || c == b {
      UsedAfterMark(s, b, c);
      assert BBlock(s.sb, c) < s.sb.datastart;
    }
  }

  /** One empty slot receives the loose block; everything else stays. */
  lemma GainSlot(s: Fs, s': Fs, owner: Owner, i: int, k: int, b: nat)
    requires Shape(s) && Shape(s') && s'.sb == s.sb && Owned(s, owner, {b}, {})
    requires IsSlot(s, i, k) && Addr(s, i, k) == 0 && Addr(s', i, k) == b
    requires forall j, l :: IsSlot(s, j, l) && (j, l) != (i, k) ==> Addr(s', j, l) == Addr(s, j, l)
    requires forall c :: 0 <= c < s.sb.size ==> (Used(s', c) <==> Used(s, c))
    ensures Owned(s', owner[b := (i, k)], {}, {})
  {
    assert b in {b};
    var owner' := owner[b := (i, k)];
    forall c | c in owner' ensures OwnedAt(s', owner', c, {}) {
      if c != b { assert OwnedAt(s, owner, c, {}); }
    }
  }

  /** Storing a loose block in an empty direct slot, or a zeroed one as the indirect table. */
  lemma SetAddrKeepsOwned(s: Fs, owner: Owner, i: nat, k: nat, b: nat)
    requires Shape(s) && Owned(s, owner, {b}, {}) && i < |s.inodes| && k < ADDRS
    requires s.inodes[i].addrs[k] == 0
    requires k == NDIRECT ==> s.blocks[b] == Zeros(BSIZE)
    ensures var s' := SetAddr(s, i, k, b);
            && Shape(s') && Owned(s', owner[b := (i, k)], {}, {})
            && Extends(s, s', owner)
            && Addr(s', i, k) == b
  {
    var s' := SetAddr(s, i, k, b);
    assert b in {b};
    forall j, l | IsSlot(s, j, l) && (j, l) != (i, k) ensures Addr(s', j, l) == Addr(s, j, l) {
      if j == i && k == NDIRECT && l >= ADDRS { ZeroWord(s.blocks[b], l - ADDRS); }
    }
    assert forall c :: 0 <= c < s.sb.size ==> (Used(s', c) <==> Used(s, c));
    GainSlot(s, s', owner, i, k, b);
  }

  /** Rewriting inode i's indirect table except for entry e changes at most that one slot. */
  lemma TableSlots(s: Fs, owner: Owner, loose: set<nat>, i: nat, e: nat, v: Block)
    requires Shape(s) && Owned(s, owner, loose, {}) && i < |s.inodes| && e < NINDIRECT
    requires 0 < s.inodes[i].addrs[NDIRECT] < |s.blocks|
    requires forall x :: 0 <= x < NINDIRECT && x != e ==> Word(v, x) == Word(s.blocks[s.inodes[i].addrs[NDIRECT]], x)
    ensures var s' := PutBlock(s, s.inodes[i].addrs[NDIRECT], v);
            && Shape(s') && Addr(s', i, ADDRS + e) == Word(v, e)
            && (forall j, l :: IsSlot(s, j, l) && (j, l) != (i, ADDRS + e) ==> Addr(s', j, l) == Addr(s, j, l))
  {
    var t := s.inodes[i].addrs[NDIRECT];
    var s' := PutBlock(s, t, v);
    TableOwned(s, owner, loose, {}, i);
    forall j, l | IsSlot(s, j, l) && (j, l) != (i, ADDRS + e) ensures Addr(s', j, l) == Addr(s, j, l) {
      if j == i { OwnSlot(s, i, l, e, v); } else { OtherSlot(s, owner, loose, i, j, l, v); }
    }
  }

  lemma OwnSlot(s: Fs, i: nat, l: int, e: nat, v: Block)
    requires Shape(s) && IsSlot(s, i, l) && l != ADDRS + e && 0 < s.inodes[i].addrs[NDIRECT] < |s.blocks|
    requires forall x :: 0 <= x < NINDIRECT && x != e ==> Word(v, x) == Word(s.blocks[s.inodes[i].addrs[NDIRECT]], x)
    ensures var s' := PutBlock(s, s.inodes[i].addrs[NDIRECT], v); Shape(s') && Addr(s', i, l) == Addr(s, i, l)
  {
    hide GoodSuper, Word;
  }

  lemma OtherSlot(s: Fs, owner: Owner, loose: set<nat>, i: nat, j: int, l: int, v: Block)
    requires Shape(s) && Owned(s, owner, loose, {}) && i < |s.inodes| && IsSlot(s, j, l) && j != i
    requires 0 < s.inodes[i].addrs[NDIRECT] < |s.blocks|
    ensures var s' := PutBlock(s, s.inodes[i].addrs[NDIRECT], v); Shape(s') && Addr(s', j, l) == Addr(s, j, l)
  {
    hide GoodSuper, Word, Owned;
    TableOwned(s, owner, loose, {}, i);
    if s.inodes[j].addrs[NDIRECT] != 0 { TableOwned(s, owner, loose, {}, j); }
  }

  lemma UsedKept(s: Fs, b: nat, v: Block)
    requires Shape(s) && s.sb.datastart <= b < s.sb.size
    ensures Shape(PutBlock(s, b, v))
    ensures forall c :: 0 <= c < s.sb.size ==> (Used(PutBlock(s, b, v), c) <==> Used(s, c))
  {
    forall c | 0 <= c < s.sb.size ensures Used(PutBlock(s, b, v), c) <==> Used(s, c) {
      assert BBlock(s.sb, c) < s.sb.datastart;
    }
  }

  /** Storing a loose block in an empty entry of the indirect table. */
  lemma SetEntryKeepsOwned(s: Fs, owner: Owner, i: nat, e: nat, b: nat, v: Block)
    requires Shape(s) && Owned(s, owner, {b}, {}) && i < |s.inodes| && e < NINDIRECT
    requires 0 < s.inodes[i].addrs[NDIRECT] < |s.blocks| && Addr(s, i, ADDRS + e) == 0
    requires EntryWritten(s.blocks[s.inodes[i].addrs[NDIRECT]], v, e, b)
    ensures var s' := PutBlock(s, s.inodes[i].addrs[NDIRECT], v);
            && Shape(s') && Owned(s', owner[b := (i, ADDRS + e)], {}, {})
            && Extends(s, s', owner)
            && Addr(s', i, ADDRS + e) == b
  {
    assert b in {b};
    var t := s.inodes[i].addrs[NDIRECT];
    TableSlots(s, owner, {b}, i, e, v);
    TableOwned(s, owner, {b}, {}, i);
    UsedKept(s, t, v);
    GainSlot(s, PutBlock(s, t, v), owner, i, ADDRS + e, b);
  }

  /** Writing a data block changes neither slots nor bitmap. */
  lemma PutDataKeepsOwned(s: Fs, owner: Owner, b: nat, v: Block)
    requires Shape(s) && Owned(s, owner, {}, {}) && b in owner && owner[b].1 != NDIRECT
    ensures OwnedAt(s, owner, b, {})
    ensures var s' := PutBlock(s, b, v);
            && Shape(s') && Owned(s', owner, {}, {})
            && (forall i, k :: IsSlot(s, i, k) ==> Addr(s', i, k) == Addr(s, i, k))
  {
    assert OwnedAt(s, owner, b, {});
    var s' := PutBlock(s, b, v);
    forall i | 0 <= i < |s.inodes| && 0 < s.inodes[i].addrs[NDIRECT] < |s.blocks|
      ensures s'.blocks[s.inodes[i].addrs[NDIRECT]] == s.blocks[s.inodes[i].addrs[NDIRECT]]
    {
      TableOwned(s, owner, {}, {}, i);
    }
    SlotsKept(s, s');
    forall c | c in owner ensures OwnedAt(s', owner, c, {}) {
      assert OwnedAt(s, owner, c, {});
    }
    UsedKept(s, b, v);
  }

  /** Freeing an owned block: its slot goes dead. */
  lemma FreeKeepsOwned(s: Fs, owner: Owner, dead: set<(int, int)>, i: int, k: int)
    requires Shape(s) && Owned(s, owner, {}, dead) && IsSlot(s, i, k) && (i, k) !in dead
    requires forall j, l :: (j, l) in dead ==> l != NDIRECT
    requires Addr(s, i, k) != 0
    ensures Addr(s, i, k) < s.sb.size && Used(s, Addr(s, i, k))
    ensures var b := Addr(s, i, k);
            var s' := MarkFree(s, b);
            && Shape(s') && b in owner && Owned(s', owner - {b}, {}, dead + {(i, k)})
            && (forall j, l :: IsSlot(s, j, l) ==> Addr(s', j, l) == Addr(s, j, l))
            && (forall c :: s.sb.datastart <= c < s.sb.size ==> s'.blocks[c] == s.blocks[c])
  {
    var b := Addr(s, i, k);
    assert OwnedAt(s, owner, b, dead);
    var s' := MarkFree(s, b);
    assert BBlock(s.sb, b) < s.sb.datastart;
    forall j | 0 <= j < |s.inodes| && 0 < s.inodes[j].addrs[NDIRECT] < |s.blocks|
      ensures s'.blocks[s.inodes[j].addrs[NDIRECT]] == s.blocks[s.inodes[j].addrs[NDIRECT]]
    {
      TableOwned(s, owner, {}, dead, j);
    }
    SlotsKept(s, s');
    var owner' := owner - {b};
    forall c | c in owner' ensures OwnedAt(s', owner', c, dead + {(i, k)}) {
      assert OwnedAt(s, owner, c, dead);
    }
    forall c | 0 <= c < s.sb.size ensures Used(s', c) <==> c < s.sb.datastart || c in owner' {
      UsedAfterMark(s, b, c);
    }
  }

  /** Clearing entry k of addrs empties its slot, and with the table every slot behind it; no other. */
  lemma ClearSlots(s: Fs, i: nat, k: nat)
    requires Shape(s) && i < |s.inodes| && k < ADDRS
    ensures var s' := SetAddr(s, i, k, 0);
            && Shape(s') && Addr(s', i, k) == 0
            && (forall l :: k == NDIRECT && ADDRS <= l < SLOTS ==> Addr(s', i, l) == 0)
            && (forall j, l :: IsSlot(s, j, l) && (j, l) != (i, k) && !(j == i && k == NDIRECT && l >= ADDRS) ==>
                  Addr(s', j, l) == Addr(s, j, l))
  {
    hide GoodSuper, Word;
  }

  lemma BitmapInDisk(s: Fs, c: nat)
    requires Shape(s) && c < s.sb.size
    ensures BBlock(s.sb, c) < |s.blocks|
  {
  }

  /** Zeroing a dead direct slot, or the table slot once every entry in use is dead. */
  lemma ClearKeepsOwned(s: Fs, owner: Owner, dead: set<(int, int)>, i: nat, k: nat)
    requires Shape(s) && Owned(s, owner, {}, dead) && i < |s.inodes| && k < ADDRS
    requires (i, k) in dead
    requires k == NDIRECT ==> forall l :: ADDRS <= l < SLOTS && Addr(s, i, l) != 0 ==> (i, l) in dead
    requires k == NDIRECT ==> forall d :: d in dead ==> d.0 == i && NDIRECT <= d.1
    ensures var s' := SetAddr(s, i, k, 0);
            && Shape(s')
            && Owned(s', owner, {}, if k == NDIRECT then {} else dead - {(i, k)})
  {
    hide Addr, GoodSuper;
    var s' := SetAddr(s, i, k, 0);
    var dead' := if k == NDIRECT then {} else dead - {(i, k)};
    ClearSlots(s, i, k);
    forall c | c in owner ensures OwnedAt(s', owner, c, dead') {
      assert OwnedAt(s, owner, c, dead);
    }
    forall c | 0 <= c < s.sb.size ensures BBlock(s.sb, c) < |s.blocks| && (Used(s', c) <==> Used(s, c)) {
      BitmapInDisk(s, c);
    }
  }
}
