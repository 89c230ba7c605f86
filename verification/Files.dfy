/** fs.c: the block allocator, bmap, itrunc, readi and writei, and filewrite of file.c, working in
    place on the blocks that the buffer cache shows and on the in-memory inodes. */
module FileBlocks {
  import opened Common
  import opened BlockData
  import opened FsState
  import opened FileFacts

  /** The blocks that a transaction logs, and those it logs before the inode's block. */
  datatype Tx = Tx(before: set<nat>, all: set<nat>)

  ghost predicate GoodTx(tx: Tx, iblock: nat) {
    |tx.all| <= MAXOPBLOCKS && |tx.before| < MAXOPBLOCKS && tx.before <= tx.all <= tx.before + {iblock}
  }

  /** aligned: the write starts at a block boundary. */
  ghost predicate GoodTxs(txs: seq<Tx>, iblock: nat, aligned: bool) {
    forall k :: 0 <= k < |txs| ==> GoodTx(txs[k], iblock) && (aligned ==> |txs[k].all| < MAXOPBLOCKS)
  }

  lemma AppendTx(txs: seq<Tx>, tx: Tx, iblock: nat, aligned: bool)
    requires GoodTxs(txs, iblock, aligned) && GoodTx(tx, iblock) && (aligned ==> |tx.all| < MAXOPBLOCKS)
    ensures GoodTxs(txs + [tx], iblock, aligned)
  {
  }

  ghost function AllLogged(txs: seq<Tx>): set<nat> {
    if txs == [] then {} else AllLogged(txs[..|txs| - 1]) + txs[|txs| - 1].all
  }

  lemma NoInodesLogged(sb: Super, inodes: seq<Inode>)
    ensures InodesLogged(sb, inodes, inodes, AllLogged([]))
  {
  }

  lemma MoreLogged(sb: Super, was: seq<Inode>, mid: seq<Inode>, now: seq<Inode>, txs: seq<Tx>, tx: Tx)
    requires InodesLogged(sb, was, mid, AllLogged(txs)) && InodesLogged(sb, mid, now, tx.all)
    ensures InodesLogged(sb, was, now, AllLogged(txs + [tx]))
  {
    assert (txs + [tx])[..|txs|] == txs;
  }

  lemma StartTx(iblock: nat, aligned: bool, n: int)
    ensures GoodTxs([], iblock, aligned) && WholeChunks(0, n)
  {
  }

  class Files {
    const sb: Super
    var blocks: seq<Block>
    var inodes: seq<Inode>        // in-memory inodes
    var dinodes: seq<Inode>       // the same inodes as last copied to the inode blocks
    ghost var owner: Owner
    ghost var logged: set<nat>    // blocks given to log_write in the current transaction

    ghost function Abs(): Fs reads this { Fs(sb, blocks, inodes) }

    ghost predicate Ok() reads this { Valid(Abs(), owner) && |dinodes| == |inodes| }

    /** balloc: first free block in bitmap order, marked used and zeroed. */
    method Balloc() returns (ok: bool, r: nat)
      requires Shape(Abs())
      modifies this`blocks, this`logged
      ensures !ok ==> blocks == old(blocks) && logged == old(logged) && forall c :: 0 <= c < sb.size ==> Used(Abs(), c)
      ensures ok ==> && r < sb.size && !Used(old(Abs()), r) && (forall c :: 0 <= c < r ==> Used(old(Abs()), c))
                     && Abs() == Alloc(old(Abs()), r) && logged == old(logged) + {BBlock(sb, r), r}
    {
      hide BBlock, Bit, SetBit;
      ghost var s := Abs();
      var b: nat := 0;
      while b < sb.size
        invariant b % BPB == 0 && blocks == old(blocks) && logged == old(logged)
        invariant forall c :: 0 <= c < sb.size && c < b ==> Used(s, c)
      {
        assert BBlock(sb, b) < sb.datastart;
        var bp := blocks[BBlock(sb, b)];
        var bi: nat := 0;
        while bi < BPB && b + bi < sb.size
          invariant bi <= BPB && blocks == old(blocks) && logged == old(logged)
          invariant forall c :: 0 <= c < sb.size && c < b + bi ==> Used(s, c)
        {
          SameBitmap(sb, b, bi);
          assert Used(s, b + bi) == Bit(bp, bi);
          if !Bit(bp, bi) {
            blocks := blocks[BBlock(sb, b) := SetBit(bp, bi)];
            logged := logged + {BBlock(sb, b)};
            blocks := blocks[b + bi := Zeros(BSIZE)];
            logged := logged + {b + bi};
            assert Abs() == Alloc(s, b + bi) && !Used(s, b + bi);
            return true, b + bi;
          }
          bi := bi + 1;
        }
        b := b + BPB;
      }
      return false, 0;
    }

    /** bfree; ok is false for the panic "freeing free block". */
    method Bfree(b: nat) returns (ok: bool)
      requires Shape(Abs()) && b < sb.size
      modifies this`blocks, this`logged
      ensures ok <==> Used(old(Abs()), b)
      ensures !ok ==> blocks == old(blocks) && logged == old(logged)
      ensures ok ==> Abs() == MarkFree(old(Abs()), b) && logged == old(logged) + {BBlock(sb, b)}
    {
      assert BBlock(sb, b) < sb.datastart;
      var bp := blocks[BBlock(sb, b)];
      if !Bit(bp, b % BPB) {
        return false;
      }
      blocks := blocks[BBlock(sb, b) := ClearBit(bp, b % BPB)];
      logged := logged + {BBlock(sb, b)};
      return true;
    }

    /** bmap: the block behind file block bn, allocated if there is none.  ok is false only for
        the panic "balloc: out of blocks". */
    method Bmap(ino: nat, bn: nat) returns (ok: bool, addr: nat)
      requires Shape(Abs()) && Owned(Abs(), owner, {}, {}) && ino < |inodes| && bn < MAXFILE
      modifies this`blocks, this`inodes, this`owner, this`logged
      ensures Addr(old(Abs()), ino, SlotOf(bn)) != 0 ==>
                ok && addr == Addr(old(Abs()), ino, SlotOf(bn)) && unchanged(this)
      ensures !ok ==> NoneFree(Abs())
      ensures ok ==> GoodMap(old(Abs()), Abs(), old(owner), owner, ino, bn, addr)
      ensures ok ==> logged <= old(logged) + BmapLogs(old(Abs()), Abs(), ino, bn)
      ensures ok ==> Covers(old(blocks), blocks, old(logged), logged)
    {
      hide Owned, OwnedAt, GoodMap, NoneFree, Covers, Extends;
      ghost var s := Abs();
      if bn < NDIRECT {
        addr := inodes[ino].addrs[bn];
        if addr == 0 {
          ok, addr := AllocAddr(ino, bn);
          if ok { StepIsMap(s, Abs(), old(owner), owner, ino, bn, addr); }
          return;
        }
        MapFound(s, owner, ino, bn);
        CoversSame(blocks, logged);
        return true, addr;
      }
      ok, addr := BmapIndirect(ino, bn - NDIRECT);
    }

    /** The second half of bmap: load the indirect table, allocating it if necessary. */
    method BmapIndirect(ino: nat, e: nat) returns (ok: bool, addr: nat)
      requires Shape(Abs()) && Owned(Abs(), owner, {}, {}) && ino < |inodes| && e < NINDIRECT
      modifies this`blocks, this`inodes, this`owner, this`logged
      ensures Addr(old(Abs()), ino, ADDRS + e) != 0 ==>
                ok && addr == Addr(old(Abs()), ino, ADDRS + e) && unchanged(this)
      ensures !ok ==> NoneFree(Abs())
      ensures ok ==> GoodMap(old(Abs()), Abs(), old(owner), owner, ino, NDIRECT + e, addr)
      ensures ok ==> logged <= old(logged) + BmapLogs(old(Abs()), Abs(), ino, NDIRECT + e)
      ensures ok ==> Covers(old(blocks), blocks, old(logged), logged)
    {
      hide Owned, OwnedAt, GoodMap, Covers;
      ghost var s := Abs();
      if inodes[ino].addrs[NDIRECT] != 0 {
        TableOwned(s, owner, {}, {}, ino);
        addr := Word(blocks[inodes[ino].addrs[NDIRECT]], e);
        if addr == 0 {
          ok, addr := AllocEntry(ino, e);
          if ok { GoodMapTrans(s, s, Abs(), old(owner), old(owner), owner, ino, NDIRECT + e, addr); }
          return;
        }
        MapFound(s, owner, ino, NDIRECT + e);
        CoversSame(blocks, logged);
        return true, addr;
      }
      var t;
      ok, t := AllocAddr(ino, NDIRECT);
      if !ok { return false, 0; }
      ghost var s1, owner1 := Abs(), owner;
      ZeroWord(blocks[t], e);
      ghost var blocks1, logged1 := blocks, logged;
      ok, addr := AllocEntry(ino, e);
      if ok {
        GoodMapTrans(s, s1, Abs(), old(owner), owner1, owner, ino, NDIRECT + e, addr);
        CoversTrans(old(blocks), blocks1, blocks, old(logged), logged1, logged);
      }
    }

    /** Allocate a block and make it the value of an empty entry of addrs. */
    method AllocAddr(ino: nat, k: nat) returns (ok: bool, addr: nat)
      requires Shape(Abs()) && Owned(Abs(), owner, {}, {}) && ino < |inodes| && k < ADDRS && inodes[ino].addrs[k] == 0
      modifies this`blocks, this`inodes, this`owner, this`logged
      ensures !ok ==> NoneFree(Abs())
      ensures ok ==> && GoodStep(old(Abs()), Abs(), old(owner), owner, ino, k, addr)
                     && inodes[ino].addrs == old(inodes[ino].addrs)[k := addr]
                     && logged == old(logged) + {BBlock(sb, addr), addr}
      ensures ok ==> Covers(old(blocks), blocks, old(logged), logged)
    {
      hide Owned, OwnedAt, GoodStep;
      ghost var s := Abs();
      ok, addr := Balloc();
      if !ok { return; }
      AllocAddrFacts(s, owner, ino, k, addr);
      inodes := inodes[ino := inodes[ino].(addrs := inodes[ino].addrs[k := addr])];
      owner := owner[addr := (ino as int, k as int)];
    }

    /** Allocate a block and store it in an empty entry of the indirect table. */
    method AllocEntry(ino: nat, e: nat) returns (ok: bool, addr: nat)
      requires Shape(Abs()) && Owned(Abs(), owner, {}, {}) && ino < |inodes| && e < NINDIRECT
      requires 0 != inodes[ino].addrs[NDIRECT] < sb.size && Addr(Abs(), ino, ADDRS + e) == 0
      modifies this`blocks, this`owner, this`logged
      ensures !ok ==> NoneFree(Abs())
      ensures ok ==> && GoodStep(old(Abs()), Abs(), old(owner), owner, ino, ADDRS + e, addr)
                     && logged == old(logged) + {BBlock(sb, addr), addr, inodes[ino].addrs[NDIRECT]}
      ensures ok ==> Covers(old(blocks), blocks, old(logged), logged)
    {
      hide Owned, OwnedAt, GoodStep, EntryWritten;
      ghost var s := Abs();
      var t := inodes[ino].addrs[NDIRECT];
      ok, addr := Balloc();
      if !ok { return; }
      var a := PutWord(blocks[t], e, addr);
      PutWordWrites(blocks[t], e, addr);
      AllocEntryFacts(s, owner, ino, e, addr, a);
      blocks := blocks[t := a];
      logged := logged + {t};
      owner := owner[addr := (ino as int, (ADDRS + e) as int)];
      assert Abs() == PutBlock(Alloc(s, addr), t, a);
    }

    /** One pass of writei's loop: at most the rest of one block. */
    method WritePart(ino: nat, off: nat, data: seq<bv8>) returns (ok: bool)
      requires Shape(Abs()) && Owned(Abs(), owner, {}, {}) && ino < |inodes|
      requires data != [] && off % BSIZE + |data| <= BSIZE && off / BSIZE < MAXFILE
      modifies this`blocks, this`inodes, this`owner, this`logged
      ensures !ok ==> NoneFree(Abs())
      ensures ok ==> PartWritten(old(Abs()), Abs(), owner, ino, off, data)
      ensures ok ==>
                logged <= old(logged) + {Addr(Abs(), ino, SlotOf(off / BSIZE))}
                          + BmapLogs(old(Abs()), Abs(), ino, off / BSIZE)
      ensures ok ==> Covers(old(blocks), blocks, old(logged), logged)
    {
      hide Owned, OwnedAt, KeepsBytes, HasBytes, Extends;
      ghost var s := Abs();
      var addr;
      ok, addr := Bmap(ino, off / BSIZE);
      if !ok { return; }
      ghost var s1, blocks1, logged1 := Abs(), blocks, logged;
      var bp := Patched(blocks[addr], off % BSIZE, data);
      PartFacts(s, s1, old(owner), owner, ino, off, data, addr);
      PutDataKeepsOwned(s1, owner, addr, bp);
      blocks := blocks[addr := bp];
      logged := logged + {addr};
      assert Abs() == PutBlock(s1, addr, bp);
    }

    /** The loop of writei. */
    method WriteLoop(ino: nat, src: seq<bv8>, off0: nat, n: nat) returns (ok: bool)
      requires Ok() && ino < |inodes| && n <= |src| && off0 <= inodes[ino].size && off0 + n <= MAXFILE * BSIZE
      modifies this`blocks, this`inodes, this`owner, this`logged
      ensures !ok ==> NoneFree(Abs())
      ensures ok ==> Progress(old(Abs()), Abs(), owner, ino, off0, src[..n])
      ensures ok ==> Covers(old(blocks), blocks, old(logged), logged)
      ensures ok && n == 0 ==> logged - old(logged) == {}
      ensures ok && n > 0 ==> |logged - old(logged)| < WriteBudget(off0, n)
      ensures ok && n > 0 ==> |logged + {IBlock(sb, ino)} - old(logged)| <= WriteBudget(off0, n)
    {
      hide Owned, OwnedAt, AllMapped, KeepsBytes, HasBytes, Covers, NoneFree, Budget, Progress, PartWritten, Mapped;
      hide Addr, WriteBudget, BmapLogs;
      ghost var s0 := Abs();
      var tot: nat, off: nat := 0, off0;
      ghost var D: set<nat>, T: set<nat>, v: nat, f: nat, q: nat := {}, {}, 0, 0, 0;
      ProgressStart(s0, owner, ino, off0);
      CoversSame(blocks, logged);
      BudgetStart(logged, inodes[ino].addrs[NDIRECT]);
      assert src[..0] == [];
      while tot < n
        invariant tot <= n && off == off0 + tot && (tot == 0 || tot == n || off % BSIZE == 0)
        invariant Progress(s0, Abs(), owner, ino, off0, src[..tot])
        invariant Covers(old(blocks), blocks, old(logged), logged)
        invariant |inodes| == |old(inodes)| && |inodes[ino].addrs| == ADDRS
        invariant tot == 0 ==> Abs() == s0 && logged == old(logged)
        invariant Budget(old(logged), logged, D, T, inodes[ino].addrs[NDIRECT], v, f, q)
        invariant v == Span(off0, tot) && f <= v && (tot > 0 && off0 % BSIZE != 0 ==> f < v)
      {
        ghost var s, owner1, blocks1, logged1 := Abs(), owner, blocks, logged;
        var m: nat := if n - tot < BSIZE - off % BSIZE then n - tot else BSIZE - off % BSIZE;
        ProgressGives(s0, s, owner, ino, off0, src[..tot]);
        ok := WritePart(ino, off, src[tot..tot + m]);
        if !ok { return; }
        PartGives(s, Abs(), owner, ino, off, src[tot..tot + m]);
        D, T, f, q := BudgetPart(s, Abs(), ino, off / BSIZE, old(logged), logged1, logged, D, T, v, f, q);
        if tot == 0 && off0 % BSIZE != 0 { FirstIsThere(s0, ino, off0); }
        v := v + 1;
        SpanStep(off0, tot, m);
        ProgressStep(s0, s, Abs(), owner1, owner, ino, off0, src[..tot], src[tot..tot + m]);
        ProgressGives(s0, Abs(), owner, ino, off0, src[..tot] + src[tot..tot + m]);
        CoversTrans(old(blocks), blocks1, blocks, old(logged), logged1, logged);
        assert src[..tot] + src[tot..tot + m] == src[..tot + m];
        tot, off := tot + m, off + m;
      }
      assert src[..tot] == src[..n];
      BudgetTotal(old(logged), logged, D, T, inodes[ino].addrs[NDIRECT], v, f, q, IBlock(sb, ino));
      BudgetBound(old(logged), logged, IBlock(sb, ino), v, f, off0, n);
      return true;
    }

    /** writei.  r is the value returned; ok is false only when balloc panicked.  before holds the blocks
        logged before iupdate, whose log_write is the last. */
    method WriteI(ino: nat, src: seq<bv8>, off0: nat, n: nat) returns (ok: bool, r: int, ghost before: set<nat>)
      requires Ok() && ino < |inodes| && n <= |src| && off0 < UINT && n < UINT
      modifies this`blocks, this`inodes, this`dinodes, this`owner, this`logged
      ensures !ok ==> NoneFree(Abs())
      ensures ok ==> (r == -1 <==> off0 > old(inodes[ino]).size || off0 + n > MAXFILE * BSIZE)
      ensures ok && r == -1 ==> unchanged(this)
      ensures ok && r != -1 ==> r == n && Ok() && |inodes| == |old(inodes)|
      ensures ok && r != -1 ==> Contents(Abs(), ino) == Splice(Contents(old(Abs()), ino), off0, src[..n])
      ensures ok && r != -1 ==>
                forall j :: 0 <= j < |inodes| && j != ino ==> Contents(Abs(), j) == Contents(old(Abs()), j)
      ensures ok && r != -1 ==> |logged - old(logged)| <= WriteBudget(off0, n)
      ensures ok ==> old(logged) <= before <= logged <= before + {IBlock(sb, ino)}
      ensures ok ==> before == old(logged) || |before - old(logged)| < WriteBudget(off0, n)
      ensures ok ==> Covers(old(blocks), blocks, old(logged), logged)
      ensures ok && old(dinodes == inodes) ==> dinodes == inodes
      ensures ok ==> InodesLogged(sb, old(dinodes), dinodes, logged)
    {
      hide Owned, OwnedAt, AllMapped, Contents, Covers, NoneFree, Progress, WriteBudget;
      ghost var s0 := Abs();
      CoversSame(blocks, logged);
      if off0 > inodes[ino].size || (off0 + n) % UINT < off0 {
        return true, -1, logged;
      }
      if off0 + n > MAXFILE * BSIZE {
        return true, -1, logged;
      }
      ok := WriteLoop(ino, src, off0, n);
      before := logged;
      if !ok { return false, 0, before; }
      CoversGrows(old(blocks), blocks, old(logged), logged);
      ProgressGives(s0, Abs(), owner, ino, off0, src[..n]);
      FinishWrite(s0, Abs(), old(owner), owner, ino, off0, src[..n]);
      ghost var s1 := Abs();
      var off := off0 + n;
      if n > 0 && off > inodes[ino].size {
        inodes := inodes[ino := inodes[ino].(size := off)];
        dinodes := dinodes[ino := inodes[ino]];
        CoversMore(old(blocks), blocks, old(logged), logged, IBlock(sb, ino));
        logged := logged + {IBlock(sb, ino)};
        assert Abs() == WithSize(s1, ino, off);
      } else {
        assert inodes[ino := inodes[ino].(size := inodes[ino].size)] == inodes;
        assert Abs() == WithSize(s1, ino, s0.inodes[ino].size);
      }
      r := n;
    }

    /** readi: the clipped slice of the contents; nothing changes, so nothing is allocated. */
    method ReadI(ino: nat, off0: nat, n0: nat) returns (r: int, dst: seq<bv8>)
      requires Ok() && ino < |inodes| && off0 < UINT && n0 < UINT
      modifies this`blocks, this`inodes, this`owner, this`logged
      ensures unchanged(this)
      ensures r == -1 <==> off0 > inodes[ino].size || off0 + n0 >= UINT
      ensures r == -1 ==> dst == []
      ensures r != -1 ==> r == |dst| == (if off0 + n0 > inodes[ino].size then inodes[ino].size - off0 else n0)
      ensures r != -1 ==> dst == Contents(Abs(), ino)[off0..off0 + r]
    {
      hide Owned, OwnedAt, AllMapped, Contents, Addr;
      dst := [];
      if off0 > inodes[ino].size || (off0 + n0) % UINT < off0 {
        return -1, [];
      }
      var n := n0;
      if off0 + n > inodes[ino].size {
        n := inodes[ino].size - off0;
      }
      var tot: nat, off: nat := 0, off0;
      ghost var s := Abs();
      while tot < n
        invariant tot <= n && off == off0 + tot && unchanged(this)
        invariant dst == Contents(s, ino)[off0..off]
      {
        var m: nat := if n - tot < BSIZE - off % BSIZE then n - tot else BSIZE - off % BSIZE;
        ReadPart(s, owner, ino, off, m);
        var _, addr := Bmap(ino, off / BSIZE);
        dst := dst + blocks[addr][off % BSIZE..off % BSIZE + m];
        assert Contents(s, ino)[off0..off + m] == Contents(s, ino)[off0..off] + Contents(s, ino)[off..off + m];
        tot, off := tot + m, off + m;
      }
      r := n;
    }

    /** One turn of filewrite's loop between begin_op and end_op, under the inode's lock. */
    method WriteChunk(ino: nat, src: seq<bv8>, off: nat, n: nat) returns (ok: bool, r: int, ghost tx: Tx)
      requires Ok() && ino < |inodes| && n <= |src| && off < UINT && n <= CHUNK
      modifies this`blocks, this`inodes, this`dinodes, this`owner, this`logged
      ensures !ok ==> NoneFree(Abs())
      ensures ok ==> (r == -1 <==> off > old(inodes[ino]).size || off + n > MAXFILE * BSIZE)
      ensures ok ==> Ok() && |inodes| == |old(inodes)| && (r == -1 || r == n)
      ensures ok ==> Contents(Abs(), ino)
                     == if r == -1 then Contents(old(Abs()), ino) else Splice(Contents(old(Abs()), ino), off, src[..n])
      ensures ok ==> forall j :: 0 <= j < |inodes| && j != ino ==> Contents(Abs(), j) == Contents(old(Abs()), j)
      ensures ok ==> GoodTx(tx, IBlock(sb, ino)) && (off % BSIZE == 0 ==> |tx.all| < MAXOPBLOCKS)
      ensures ok ==> logged == tx.all && Covers(old(blocks), blocks, {}, logged)
      ensures ok && old(dinodes == inodes) ==> dinodes == inodes
      ensures ok ==> InodesLogged(sb, old(dinodes), dinodes, tx.all)
    {
      hide Owned, OwnedAt, AllMapped, Contents, Addr, NoneFree, Covers, WriteBudget, Splice;
      logged := {};
      ChunkFits(off, n);
      ghost var before;
      ok, r, before := WriteI(ino, src, off, n);
      assert before - {} == before && logged - {} == logged;
      tx := Tx(before, logged);
    }

    /** filewrite on an inode: pieces of at most CHUNK bytes, each its own transaction.  done bytes
        were written; txs lists the blocks logged by each transaction.  Every log_write of a transaction
        finds fewer than MAXOPBLOCKS blocks logged. */
    method FileWrite(ino: nat, src: seq<bv8>, n: int, off0: nat)
      returns (ok: bool, r: int, off: nat, ghost done: nat, ghost txs: seq<Tx>)
      requires Ok() && ino < |inodes| && n <= |src| && n < UINT && off0 < UINT
      modifies this`blocks, this`inodes, this`dinodes, this`owner, this`logged
      ensures GoodTxs(txs, IBlock(sb, ino), off0 % BSIZE == 0)
      ensures !ok ==> NoneFree(Abs())
      ensures ok ==> Ok() && |inodes| == |old(inodes)| && done <= |src| && off == off0 + done
      ensures ok ==> (r == n && done == n) || (r == -1 && (n < 0 || done < n) && WholeChunks(done, n))
      ensures ok && n > 0 ==> (r == n <==> off0 <= old(inodes[ino].size) && off0 + n <= MAXFILE * BSIZE)
      ensures ok && done > 0 ==> off0 <= old(inodes[ino].size)
      ensures ok && done > 0 ==> Contents(Abs(), ino) == Splice(Contents(old(Abs()), ino), off0, src[..done])
      ensures ok && done == 0 ==> Contents(Abs(), ino) == Contents(old(Abs()), ino)
      ensures ok ==> forall j :: 0 <= j < |inodes| && j != ino ==> Contents(Abs(), j) == Contents(old(Abs()), j)
      ensures ok && old(dinodes == inodes) ==> dinodes == inodes
      ensures ok ==> InodesLogged(sb, old(dinodes), dinodes, AllLogged(txs))
    {
      hide Owned, OwnedAt, AllMapped, Contents, Addr, NoneFree, Covers, Splice, GoodTx, GoodTxs, WholeChunks;
      hide InodesLogged, AllLogged;
      NoInodesLogged(sb, dinodes);
      StartTx(IBlock(sb, ino), off0 % BSIZE == 0, n);
      ghost var aligned := off0 % BSIZE == 0;
      ghost var c0 := Contents(Abs(), ino);
      var i := 0;
      off, txs, r := off0, [], 0;
      while i < n
        invariant 0 <= i && (i == 0 || i <= n) && WholeChunks(i, n) && off == off0 + i && off < UINT
        invariant GoodTxs(txs, IBlock(sb, ino), aligned)
        invariant Ok() && |inodes| == |old(inodes)|
        invariant i == 0 ==> Contents(Abs(), ino) == c0
        invariant i > 0 ==> off0 <= |c0| && off <= MAXFILE * BSIZE && Contents(Abs(), ino) == Splice(c0, off0, src[..i])
        invariant forall j :: 0 <= j < |inodes| && j != ino ==> Contents(Abs(), j) == Contents(old(Abs()), j)
        invariant old(dinodes == inodes) ==> dinodes == inodes
        invariant InodesLogged(sb, old(dinodes), dinodes, AllLogged(txs))
      {
        var n1 := n - i;
        if n1 > CHUNK {
          n1 := CHUNK;
        }
        ghost var c := Contents(Abs(), ino);
        NextChunk(off0, i, n);
        ghost var tx, dinodes1 := *, dinodes;
        ok, r, tx := WriteChunk(ino, src[i..], off, n1);
        if !ok { return false, r, off, 0, txs; }
        AppendTx(txs, tx, IBlock(sb, ino), aligned);
        MoreLogged(sb, old(dinodes), dinodes1, dinodes, txs, tx);
        txs := txs + [tx];
        if r < 0 {
          done := i;
          WriteFails(c0, c, off0, src, i);
          return true, -1, off, i, txs;
        }
        JoinChunks(c0, c, off0, src, i, n1);
        off := off + r;
        i := i + r;
      }
      ok, done := true, i;
      r := if i == n then n else -1;
    }

    /** itrunc.  ok says that "freeing free block" did not occur: it never does. */
    method ITrunc(ino: nat) returns (ok: bool)
      requires Ok() && ino < |inodes|
      modifies this`blocks, this`inodes, this`dinodes, this`owner, this`logged
      ensures ok && Ok() && |inodes| == |old(inodes)|
      ensures inodes[ino].size == 0 && dinodes[ino] == inodes[ino]
      ensures forall k :: 0 <= k < ADDRS ==> inodes[ino].addrs[k] == 0
      ensures forall b :: b in owner <==> b in old(owner) && old(owner)[b].0 != ino
      ensures forall b :: sb.datastart <= b < sb.size ==>
                (Used(Abs(), b) <==> Used(old(Abs()), b) && !(b in old(owner) && old(owner)[b].0 == ino))
      ensures forall j :: 0 <= j < |inodes| && j != ino ==> Contents(Abs(), j) == Contents(old(Abs()), j)
      ensures Covers(old(blocks), blocks, old(logged), logged)
      ensures logged <= old(logged) + FreedMaps(sb, old(owner), ino) + {IBlock(sb, ino)}
      ensures IBlock(sb, ino) in logged && dinodes == old(dinodes)[ino := inodes[ino]]
    {
      hide Owned, OwnedAt, AllMapped, Contents, Covers, Truncating, Without, FreedMaps;
      ghost var s0, gone := Abs(), {};
      TruncStart(s0, owner, ino);
      CoversSame(blocks, logged);
      var i: nat := 0;
      ok := true;
      while i < NDIRECT
        invariant owner == old(owner) && dinodes == old(dinodes)
        invariant i <= NDIRECT && ok && Truncating(s0, Abs(), old(owner), ino, gone, {})
        invariant |inodes| == |old(inodes)| && |inodes[ino].addrs| == ADDRS
        invariant forall k :: k in gone <==> 0 <= k < i
        invariant forall k :: 0 <= k < i ==> inodes[ino].addrs[k] == 0
        invariant Covers(old(blocks), blocks, old(logged), logged) && logged <= old(logged) + FreedMaps(sb, owner, ino)
      {
        ghost var blocks1, logged1 := blocks, logged;
        TruncGives(s0, Abs(), old(owner), ino, gone, {});
        var fine := FreeDirect(s0, ino, gone, i);
        CoversTrans(old(blocks), blocks1, blocks, old(logged), logged1, logged);
        ok := ok && fine;
        gone := gone + {i as int};
        i := i + 1;
      }
      TruncGives(s0, Abs(), old(owner), ino, gone, {});
      if inodes[ino].addrs[NDIRECT] != 0 {
        ghost var blocks1, logged1 := blocks, logged;
        var fine := FreeTable(s0, ino, gone);
        CoversTrans(old(blocks), blocks1, blocks, old(logged), logged1, logged);
        ok := ok && fine;
      } else {
        TruncNoTable(s0, Abs(), old(owner), ino, gone);
      }
      gone := gone + TableSlotSet(NINDIRECT) + {NDIRECT as int};
      TruncDone(s0, Abs(), old(owner), ino, gone);
      ghost var s1 := Abs();
      inodes := inodes[ino := inodes[ino].(size := 0)];
      dinodes := dinodes[ino := inodes[ino]];
      CoversMore(old(blocks), blocks, old(logged), logged, IBlock(sb, ino));
      logged := logged + {IBlock(sb, ino)};
      owner := Without(owner, ino, gone);
      assert Abs() == WithSize(s1, ino, 0);
    }

    /** One pass of itrunc's first loop. */
    method FreeDirect(ghost s0: Fs, ino: nat, ghost gone: set<int>, i: nat) returns (ok: bool)
      requires Shape(Abs()) && ino < |inodes| && Truncating(s0, Abs(), owner, ino, gone, {}) && i < NDIRECT
      requires i as int !in gone
      modifies this`blocks, this`inodes, this`logged
      ensures ok && Truncating(s0, Abs(), owner, ino, gone + {i as int}, {})
      ensures |inodes| == |old(inodes)| && |old(inodes[ino]).addrs| == ADDRS
      ensures inodes[ino].addrs == old(inodes[ino]).addrs[i := 0]
      ensures Covers(old(blocks), blocks, old(logged), logged) && logged <= old(logged) + FreedMaps(sb, owner, ino)
    {
      hide Owned, OwnedAt, Without;
      ghost var s := Abs();
      ok := true;
      if inodes[ino].addrs[i] != 0 {
        TruncFree(s0, s, owner, ino, gone, {}, i);
        ok := Bfree(inodes[ino].addrs[i]);
        ghost var s1 := Abs();
        TruncClear(s0, s1, owner, ino, gone + {i as int}, {} + {(ino as int, i as int)}, i);
        inodes := inodes[ino := inodes[ino].(addrs := inodes[ino].addrs[i := 0])];
        assert Abs() == SetAddr(s1, ino, i, 0);
      } else {
        TruncSkip(s0, s, owner, ino, gone, {}, i, false);
        assert inodes[ino].addrs[i := 0] == inodes[ino].addrs;
      }
    }

    /** itrunc's second half: every entry of the indirect table, then the table. */
    method FreeTable(ghost s0: Fs, ino: nat, ghost gone: set<int>) returns (ok: bool)
      requires Shape(Abs()) && ino < |inodes| && Truncating(s0, Abs(), owner, ino, gone, {})
      requires inodes[ino].addrs[NDIRECT] != 0
      requires forall k :: k in gone ==> k < NDIRECT
      modifies this`blocks, this`inodes, this`logged
      ensures ok && Truncating(s0, Abs(), owner, ino, gone + TableSlotSet(NINDIRECT) + {NDIRECT as int}, {})
      ensures |inodes| == |old(inodes)| && |old(inodes[ino]).addrs| == ADDRS
      ensures inodes[ino].addrs == old(inodes[ino]).addrs[NDIRECT := 0]
      ensures Covers(old(blocks), blocks, old(logged), logged) && logged <= old(logged) + FreedMaps(sb, owner, ino)
    {
      hide Owned, OwnedAt, Without, Truncating, Covers, Used, BBlock, FreedMaps;
      ghost var s := Abs();
      var t := inodes[ino].addrs[NDIRECT];
      TruncTableIn(s0, s, owner, ino, gone);
      var a := blocks[t];
      var j: nat := 0;
      ok := true;
      CoversSame(blocks, logged);
      while j < NINDIRECT
        invariant j <= NINDIRECT && ok && inodes == old(inodes) && Shape(Abs())
        invariant Truncating(s0, Abs(), owner, ino, gone + TableSlotSet(j), TableDead(ino, j))
        invariant forall l :: 0 <= l < SLOTS ==> Addr(Abs(), ino, l) == Addr(s, ino, l)
        invariant Covers(old(blocks), blocks, old(logged), logged) && logged <= old(logged) + FreedMaps(sb, owner, ino)
      {
        ghost var blocks1, logged1 := blocks, logged;
        var fine := FreeEntry(s0, ino, gone, j, Word(a, j));
        ok := ok && fine;
        CoversTrans(old(blocks), blocks1, blocks, old(logged), logged1, logged);
        j := j + 1;
      }
      ghost var blocks1, logged1 := blocks, logged;
      ghost var s1 := Abs();
      TruncFree(s0, s1, owner, ino, gone + TableSlotSet(j), TableDead(ino, j), NDIRECT);
      var fine := Bfree(t);
      ok := ok && fine;
      FreeCovers(s1, t, logged1);
      CoversTrans(old(blocks), blocks1, blocks, old(logged), logged1, logged);
      ghost var s2 := Abs();
      TruncClear(s0, s2, owner, ino, gone + TableSlotSet(j) + {NDIRECT as int},
        TableDead(ino, j) + {(ino as int, NDIRECT as int)}, NDIRECT);
      inodes := inodes[ino := inodes[ino].(addrs := inodes[ino].addrs[NDIRECT := 0])];
      assert Abs() == SetAddr(s2, ino, NDIRECT, 0);
    }

    method FreeEntry(ghost s0: Fs, ino: nat, ghost gone: set<int>, j: nat, a: nat) returns (ok: bool)
      requires Shape(Abs()) && ino < |inodes| && j < NINDIRECT && (forall k :: k in gone ==> k < NDIRECT)
      requires Truncating(s0, Abs(), owner, ino, gone + TableSlotSet(j), TableDead(ino, j))
      requires a == Addr(Abs(), ino, ADDRS + j)
      modifies this`blocks, this`logged
      ensures ok && Shape(Abs()) && Truncating(s0, Abs(), owner, ino, gone + TableSlotSet(j + 1), TableDead(ino, j + 1))
      ensures forall l :: 0 <= l < SLOTS ==> Addr(Abs(), ino, l) == Addr(old(Abs()), ino, l)
      ensures Covers(old(blocks), blocks, old(logged), logged) && logged <= old(logged) + FreedMaps(sb, owner, ino)
    {
      hide Owned, OwnedAt, Without;
      ghost var s := Abs();
      TableGrows(ino, gone, j);
      ok := true;
      if a != 0 {
        TruncFree(s0, s, owner, ino, gone + TableSlotSet(j), TableDead(ino, j), ADDRS + j);
        ok := Bfree(a);
      } else {
        TruncSkip(s0, s, owner, ino, gone + TableSlotSet(j), TableDead(ino, j), ADDRS + j, true);
      }
    }
  }
}
