/** Disk blocks as bytes: the 32-bit words of an indirect block and the bits of a bitmap block. */
module BlockData {

  const BSIZE: nat := 512
  const NDIRECT: nat := 12
  const NINDIRECT: nat := 128  // BSIZE / sizeof(uint)
  const MAXFILE: nat := NDIRECT + NINDIRECT
  const BPB: nat := 4096       // bitmap bits per block
  const IPB: nat := 8          // inodes per block

  type Block = b: seq<bv8> | |b| == BSIZE witness Zeros(BSIZE)

  function Zeros(n: nat): (s: seq<bv8>)
    ensures |s| == n && forall i :: 0 <= i < n ==> s[i] == 0
  {
    seq(n, _ => 0)
  }

  // ---- Words, least significant byte first ----

  function Join(x0: bv8, x1: bv8, x2: bv8, x3: bv8): (w: nat)
    ensures w < 0x1_0000_0000
  {
    (x0 as nat) + 256 * (x1 as nat) + 65536 * (x2 as nat) + 16777216 * (x3 as nat)
  }

  function Word(b: Block, i: nat): (w: nat)
    requires i < NINDIRECT
    ensures w < 0x1_0000_0000
  {
    Join(b[4 * i], b[4 * i + 1], b[4 * i + 2], b[4 * i + 3])
  }

  function Byte(w: nat, k: nat): bv8 {
    if k == 0 then (w % 256) as bv8
    else Byte(w / 256, k - 1)
  }

  /** The assignment a[i] = w on a block seen as an array of words. */
  function PutWord(b: Block, i: nat, w: nat): Block
    requires i < NINDIRECT && w < 0x1_0000_0000
  {
    b[4 * i := Byte(w, 0)][4 * i + 1 := Byte(w, 1)][4 * i + 2 := Byte(w, 2)][4 * i + 3 := Byte(w, 3)]
  }

  lemma PutWordAt(b: Block, i: nat, w: nat, j: nat)
    requires i < NINDIRECT && w < 0x1_0000_0000 && j < NINDIRECT
    ensures Word(PutWord(b, i, w), j) == if j == i then w else Word(b, j)
  {
    WordBytes(w);
  }

  /** v is the table old with entry e changed to w. */
  ghost predicate EntryWritten(was: Block, v: Block, e: nat, w: nat) {
    forall x :: 0 <= x < NINDIRECT ==> Word(v, x) == if x == e then w else Word(was, x)
  }

  lemma PutWordWrites(b: Block, e: nat, w: nat)
    requires e < NINDIRECT && w < 0x1_0000_0000
    ensures EntryWritten(b, PutWord(b, e, w), e, w)
  {
    forall x | 0 <= x < NINDIRECT ensures Word(PutWord(b, e, w), x) == if x == e then w else Word(b, x) {
      PutWordAt(b, e, w, x);
    }
  }

  lemma AsByte(x: nat)
    requires x < 256
    ensures (x as bv8) as nat == x
  {
    // smaller ranges keep the bit-vector reasoning cheap
    if x < 128 { if x < 64 {} else {} } else { if x < 192 {} else {} }
  }

  lemma {:induction false} LowByte(w: nat, k: nat)
    ensures Byte(w, 0) as nat == w % 256
    ensures Byte(w, k + 1) == Byte(w / 256, k)
  {
    AsByte(w % 256);
  }

  lemma Digits(w: nat)
    requires w < 0x1_0000_0000
    ensures w == w % 256 + 256 * (w / 256 % 256) + 65536 * (w / 256 / 256 % 256)
                 + 16777216 * (w / 256 / 256 / 256 % 256)
  {
  }

  lemma WordBytes(w: nat)
    requires w < 0x1_0000_0000
    ensures Join(Byte(w, 0), Byte(w, 1), Byte(w, 2), Byte(w, 3)) == w
  {
    var w1, w2, w3 := w / 256, w / 256 / 256, w / 256 / 256 / 256;
    Digits(w);
    LowByte(w, 0);
    LowByte(w1, 0);
    LowByte(w2, 0);
    LowByte(w3, 0);
    assert Byte(w, 2) == Byte(w1, 1);
    assert Byte(w, 3) == Byte(w1, 2) == Byte(w2, 1);
  }

  lemma ZeroWord(b: Block, i: nat)
    requires i < NINDIRECT && b == Zeros(BSIZE)
    ensures Word(b, i) == 0
  {
  }

  // ---- Bits ----

  /** The mask 1 << k. */
  function Mask(k: nat): bv8
    requires k < 8
  {
    if k == 0 then 1 else if k == 1 then 2 else if k == 2 then 4 else if k == 3 then 8
    else if k == 4 then 16 else if k == 5 then 32 else if k == 6 then 64 else 128
  }

  predicate Bit(b: Block, i: nat)
    requires i < BPB
  {
    HasMask(b[i / 8], i % 8)
  }

  predicate HasMask(x: bv8, k: nat)
    requires k < 8
  {
    x & Mask(k) != 0
  }

  lemma MaskFacts(x: bv8, k: nat, l: nat)
    requires k < 8 && l < 8
    ensures HasMask(x | Mask(k), l) <==> k == l || HasMask(x, l)
    ensures HasMask(x & !Mask(k), l) <==> k != l && HasMask(x, l)
  {
  }

  function SetBit(b: Block, i: nat): Block
    requires i < BPB
  {
    b[i / 8 := b[i / 8] | Mask(i % 8)]
  }

  function ClearBit(b: Block, i: nat): Block
    requires i < BPB
  {
    b[i / 8 := b[i / 8] & !Mask(i % 8)]
  }

  lemma BitAt(b: Block, i: nat, j: nat)
    requires i < BPB && j < BPB
    ensures Bit(SetBit(b, i), j) <==> j == i || Bit(b, j)
    ensures Bit(ClearBit(b, i), j) <==> j != i && Bit(b, j)
  {
    hide Mask, HasMask;
    MaskFacts(b[i / 8], i % 8, j % 8);
    if j / 8 != i / 8 {
      assert SetBit(b, i)[j / 8] == b[j / 8] == ClearBit(b, i)[j / 8];
    }
  }
}
