/**
 The inode content layer of kernel/fs.c as a value: blocks, the in-memory inodes, and the
 block pointers they hold. Slot k of an inode is addrs[k] for k <= NDIRECT, addrs[NDIRECT]
 being the indirect block, and word k - NDIRECT - 1 of the indirect block beyond that.
 */
module FsState {
  import opened FsBytes

  const NDIRECT := 12
  const MAXFILE := NDIRECT + NINDIRECT
  const NSLOTS := NDIRECT + 1 + NINDIRECT
  const IPB := 16
  const INODEWORDS := 16   // sizeof(struct dinode) / sizeof(uint)

  /** Where the superblock says things are; datastart is the block after the bitmap. */
  datatype Super = Super(size: nat, inodestart: nat, bmapstart: nat, datastart: nat) {
    predicate Valid() {
      inodestart <= bmapstart && bmapstart + size / BPB < datastart <= size < WORDMAX
    }
    /** BBLOCK */
    function BitmapBlock(b: nat): nat { bmapstart + b / BPB }
    /** IBLOCK */
    function InodeBlock(i: nat): nat { inodestart + i / IPB }
  }

  datatype Inode = Inode(size: nat, addrs: seq<nat>)

  /** The size and the addresses fit their words. */
  predicate Storable(x: Inode) {
    x.size < WORDMAX && |x.addrs| == NDIRECT + 1 && forall k :: 0 <= k <= NDIRECT ==> x.addrs[k] < WORDMAX
  }

  /** Inode x is what slot k of an inode block says. */
  predicate InodeIn(b: Block, k: nat, x: Inode)
    requires k < IPB && |x.addrs| == NDIRECT + 1
  {
    && Word(b, k * INODEWORDS + 2) == x.size
    && forall j :: 0 <= j <= NDIRECT ==> Word(b, k * INODEWORDS + 3 + j) == x.addrs[j]
  }

  /** dip->size and dip->addrs of slot k set from x. */
  function StoreInode(b: Block, k: nat, x: Inode): (r: Block)
    requires k < IPB && Storable(x)
    ensures InodeIn(r, k, x)
    ensures forall j :: 0 <= j < NINDIRECT && !(k * INODEWORDS + 2 <= j < k * INODEWORDS + 3 + NDIRECT + 1) ==>
              Word(r, j) == Word(b, j)
    ensures forall l, y: Inode :: 0 <= l < IPB && l != k && |y.addrs| == NDIRECT + 1 ==>
              (InodeIn(r, l, y) <==> InodeIn(b, l, y))
  {
    SetWords(b, k * INODEWORDS + 2, [x.size] + x.addrs)
  }

  /** The slot that maps file block bn. */
  function Slot(bn: nat): nat { if bn < NDIRECT then bn else bn + 1 }

  datatype Fs = Fs(sb: Super, blocks: seq<Block>, inodes: seq<Inode>) {

    ghost predicate Shape() {
      && sb.Valid() && |blocks| == sb.size
      && sb.inodestart + |inodes| / IPB < sb.bmapstart
      && (forall i :: 0 <= i < |inodes| ==> |inodes[i].addrs| == NDIRECT + 1 && inodes[i].size <= MAXFILE * BSIZE)
    }

    /** Block b's bit in the free map. */
    predicate Used(b: nat)
      requires sb.BitmapBlock(b) < |blocks|
    {
      Bit(blocks[sb.BitmapBlock(b)], b % BPB)
    }

    /** The block number in slot k of inode i; 0 for none. */
    function Ptr(i: nat, k: nat): (b: nat)
      requires i < |inodes| && |inodes[i].addrs| == NDIRECT + 1 && k < NSLOTS
    {
      if k <= NDIRECT then inodes[i].addrs[k]
      else if inodes[i].addrs[NDIRECT] == 0 || inodes[i].addrs[NDIRECT] >= |blocks| then 0
      else Word(blocks[inodes[i].addrs[NDIRECT]], k - NDIRECT - 1)
    }

    ghost predicate IsSlot(i: int, k: int) { 0 <= i < |inodes| && 0 <= k < NSLOTS }

    /**
     Block ownership: every pointer is to a data block marked used, no block is pointed to
     twice, and all blocks before the data area are marked used.
     */
    ghost predicate Owned()
      requires Shape()
    {
      && (forall i, k :: IsSlot(i, k) ==> Ptr(i, k) == 0 || (sb.datastart <= Ptr(i, k) < sb.size && Used(Ptr(i, k))))
      && (forall i, k, j, l :: IsSlot(i, k) && IsSlot(j, l) && (i != j || k != l) && Ptr(i, k) != 0 ==>
            Ptr(i, k) != Ptr(j, l))
      && (forall b :: 0 <= b < sb.datastart ==> Used(b))
    }

    /** Every block below a file's size is mapped. */
    ghost predicate NoHoles()
      requires Shape()
    {
      forall i, bn :: 0 <= i < |inodes| && 0 <= bn < MAXFILE && bn * BSIZE < inodes[i].size ==> Ptr(i, Slot(bn)) != 0
    }

    ghost predicate Valid() { Shape() && Owned() && NoHoles() }

    /** Byte x of inode i's mapped blocks; 0 where nothing is mapped. */
    ghost function ByteAt(i: nat, x: nat): Byte
      requires Shape() && i < |inodes| && x < MAXFILE * BSIZE
    {
      var b := Ptr(i, Slot(x / BSIZE));
      if b == 0 || b >= |blocks| then 0 else blocks[b][x % BSIZE]
    }

    /** The file's bytes. */
    ghost function Content(i: nat): (c: seq<Byte>)
      requires Shape() && i < |inodes|
      ensures |c| == inodes[i].size
      ensures forall x :: 0 <= x < |c| ==> c[x] == ByteAt(i, x)
    {
      seq(inodes[i].size, x requires 0 <= x < MAXFILE * BSIZE => ByteAt(i, x))
    }

    /** The disk's copy of inode i has the size and the addresses of the in-memory one. */
    ghost predicate Stored(i: nat)
      requires Shape() && i < |inodes|
    {
      InodeIn(blocks[sb.InodeBlock(i)], i % IPB, inodes[i])
    }

    // ----- elementary changes

    /** iupdate's effect on the disk. */
    function Store(i: nat): Fs
      requires i < |inodes| && sb.InodeBlock(i) < |blocks| && Storable(inodes[i])
    {
      Put(sb.InodeBlock(i), StoreInode(blocks[sb.InodeBlock(i)], i % IPB, inodes[i]))
    }

    /** balloc's effect: mark b used and zero it. */
    function Alloc(b: nat): Fs
      requires sb.BitmapBlock(b) < |blocks| && b < |blocks| && !Used(b)
    {
      Put(sb.BitmapBlock(b), SetBit(blocks[sb.BitmapBlock(b)], b % BPB)).Put(b, Zero())
    }

    /** Store b in slot k of inode i. */
    function Attach(i: nat, k: nat, b: nat): Fs
      requires i < |inodes| && |inodes[i].addrs| == NDIRECT + 1 && k < NSLOTS && b < WORDMAX
      requires k > NDIRECT ==> inodes[i].addrs[NDIRECT] < |blocks|
    {
      if k <= NDIRECT then Fs(sb, blocks, inodes[i := Inode(inodes[i].size, inodes[i].addrs[k := b])])
      else Fs(sb, blocks[inodes[i].addrs[NDIRECT] := SetWord(blocks[inodes[i].addrs[NDIRECT]], k - NDIRECT - 1, b)],
          inodes)
    }

    /** bfree's effect: mark b free. */
    function Free(b: nat): Fs
      requires sb.BitmapBlock(b) < |blocks| && Used(b)
    {
      Put(sb.BitmapBlock(b), ClearBit(blocks[sb.BitmapBlock(b)], b % BPB))
    }

    function Put(b: nat, data: Block): Fs
      requires b < |blocks|
    {
      Fs(sb, blocks[b := data], inodes)
    }
  }

  /** Where the free map keeps block b. */
  lemma UsedExact(f: Fs, b: nat)
    requires f.Shape() && b < f.sb.size
    ensures f.sb.bmapstart + b / 8192 < |f.blocks|
    ensures f.Used(b) <==> f.blocks[f.sb.bmapstart + b / 8192][b % 8192 / 8] / Weight(b % 8) % 2 == 1
  {
    BitByte(f.blocks[f.sb.BitmapBlock(b)], b % BPB);
    assert b % 8192 % 8 == b % 8;
  }

  /**
   Where byte x of a file is: in the block of its address for the first twelve blocks, and
   behind them in the block that the indirect block names, little-endian.
   */
  lemma ByteExact(f: Fs, i: nat, x: nat)
    requires f.Valid() && i < |f.inodes| && x < f.inodes[i].size
    ensures var bn, a := x / 1024, f.inodes[i].addrs;
            if bn < 12 then a[bn] < |f.blocks| && f.Content(i)[x] == f.blocks[a[bn]][x % 1024]
            else
              && a[12] < |f.blocks|
              && var w, j := f.blocks[a[12]], 4 * (bn - 12);
              && j + 3 < 1024
              && var b0: int, b1: int, b2: int, b3: int := w[j], w[j + 1], w[j + 2], w[j + 3];
                 var p := b0 + 0x100 * b1 + 0x1_0000 * b2 + 0x100_0000 * b3;
              p < |f.blocks| && f.Content(i)[x] == f.blocks[p][x % 1024]
  {
    assert f.IsSlot(i, Slot(x / 1024)) && x / 1024 * BSIZE < f.inodes[i].size;
    assert f.Ptr(i, Slot(x / BSIZE)) != 0;
    IndirectOwned(f, i);
    hide Fs.Used, Bit;
  }

  /** Same inodes and pointers. */
  ghost predicate SamePtrs(f: Fs, g: Fs) {
    && f.Shape() && g.Shape() && f.sb == g.sb && |f.inodes| == |g.inodes|
    && (forall i :: 0 <= i < |f.inodes| ==> f.inodes[i].size == g.inodes[i].size)
    && (forall i, k :: f.IsSlot(i, k) ==> g.Ptr(i, k) == f.Ptr(i, k))
  }

  ghost predicate SameUsed(f: Fs, g: Fs) {
    f.Shape() && g.Shape() && f.sb == g.sb && forall b :: 0 <= b < f.sb.size ==> g.Used(b) == f.Used(b)
  }

  /** Nothing points to b. */
  ghost predicate Unowned(f: Fs, b: nat)
    requires f.Shape()
  {
    forall i, k :: f.IsSlot(i, k) ==> f.Ptr(i, k) != b
  }

  /** A block in use stays in use. */
  ghost predicate MoreUsed(f: Fs, g: Fs)
    requires f.Shape() && g.Shape() && f.sb == g.sb
  {
    forall b :: 0 <= b < f.sb.size && f.Used(b) ==> g.Used(b)
  }

  lemma StillValid(f: Fs, g: Fs)
    requires f.Valid() && SamePtrs(f, g) && MoreUsed(f, g)
    ensures g.Valid()
  {
    hide Fs.Ptr, Fs.Used;
  }

  /** The indirect block of an inode is a used data block like any other. */
  lemma IndirectOwned(f: Fs, i: nat)
    requires f.Valid() && i < |f.inodes|
    ensures var d := f.inodes[i].addrs[NDIRECT];
            d == f.Ptr(i, NDIRECT) && (d == 0 || (f.sb.datastart <= d < f.sb.size && f.Used(d)))
  {
    assert f.IsSlot(i, NDIRECT);
  }

  /** Pointers do not change while inodes and indirect blocks do not. */
  lemma SamePtrsIf(f: Fs, g: Fs)
    requires f.Valid() && g.sb == f.sb && g.inodes == f.inodes && |g.blocks| == |f.blocks|
    requires forall i :: 0 <= i < |f.inodes| && f.inodes[i].addrs[NDIRECT] != 0 ==>
               f.inodes[i].addrs[NDIRECT] < |f.blocks| ==>
                   g.blocks[f.inodes[i].addrs[NDIRECT]] == f.blocks[f.inodes[i].addrs[NDIRECT]]
    ensures SamePtrs(f, g)
  {
    hide Word, Bit;
  }

  lemma AllocBits(f: Fs, b: nat)
    requires f.Shape() && b < f.sb.size && !f.Used(b) && f.sb.datastart <= b
    ensures var g := f.Alloc(b);
            && g.Shape() && g.blocks[b] == Zero()
            && (forall c :: f.sb.datastart <= c < f.sb.size && c != b ==> g.blocks[c] == f.blocks[c])
            && (forall c :: 0 <= c < f.sb.size ==> g.Used(c) == (f.Used(c) || c == b))
  {
    hide Bit, Zero;
    var g := f.Alloc(b);
    forall c | 0 <= c < f.sb.size
      ensures g.Used(c) == (f.Used(c) || c == b)
    {
      if f.sb.BitmapBlock(c) == f.sb.BitmapBlock(b) && c != b {
        assert c % BPB != b % BPB;
      }
    }
  }

  /** Marking a free block used and zeroing it disturbs no pointer and no other data block. */
  lemma AllocEffect(f: Fs, b: nat)
    requires f.Valid() && b < f.sb.size && !f.Used(b)
    ensures f.sb.datastart <= b
    ensures var g := f.Alloc(b);
            && g.Valid() && SamePtrs(f, g) && Unowned(g, b)
            && g.blocks[b] == Zero()
            && (forall c :: f.sb.datastart <= c < f.sb.size && c != b ==> g.blocks[c] == f.blocks[c])
            && (forall c :: 0 <= c < f.sb.size ==> g.Used(c) == (f.Used(c) || c == b))
  {
    hide Word, Bit, Zero;
    AllocBits(f, b);
    var g := f.Alloc(b);
    assert g.inodes == f.inodes && g.sb == f.sb && |g.blocks| == |f.blocks|;
    forall i: nat | i < |f.inodes|
      ensures f.inodes[i].addrs[NDIRECT] != b
      ensures f.inodes[i].addrs[NDIRECT] == 0 || f.sb.datastart <= f.inodes[i].addrs[NDIRECT] < f.sb.size
    {
      IndirectOwned(f, i);
    }
    SamePtrsIf(f, g);
    StillValid(f, g);
  }

  /** g has f's pointers except that slot k of inode i now holds b. */
  ghost predicate PtrsPlus(f: Fs, g: Fs, i: nat, k: nat, b: nat) {
    && f.Shape() && g.Shape() && f.sb == g.sb && |f.inodes| == |g.inodes|
    && (forall j :: 0 <= j < |f.inodes| ==> f.inodes[j].size == g.inodes[j].size)
    && (forall j, l :: f.IsSlot(j, l) ==> g.Ptr(j, l) == if j == i && l == k then b else f.Ptr(j, l))
  }

  /** Storing an unowned used data block in an empty slot keeps every invariant. */
  lemma PlusValid(f: Fs, g: Fs, i: nat, k: nat, b: nat)
    requires f.Valid() && PtrsPlus(f, g, i, k, b) && MoreUsed(f, g)
    requires f.IsSlot(i, k) && f.Ptr(i, k) == 0
    requires f.sb.datastart <= b < f.sb.size && f.Used(b) && Unowned(f, b)
    ensures g.Valid()
  {
    hide Fs.Ptr, Fs.Used;
  }

  lemma AttachDirect(f: Fs, i: nat, k: nat, b: nat)
    requires f.Valid() && i < |f.inodes| && k <= NDIRECT && f.Ptr(i, k) == 0
    requires f.sb.datastart <= b < f.sb.size && f.Used(b) && Unowned(f, b)
    requires k == NDIRECT ==> f.blocks[b] == Zero()
    ensures var g := f.Attach(i, k, b);
            g.Valid() && PtrsPlus(f, g, i, k, b) && SameUsed(f, g) && g.blocks == f.blocks
  {
    hide Word, Bit, Zero;
    ZeroWords();
    var g := f.Attach(i, k, b);
    PlusValid(f, g, i, k, b);
  }

  lemma AttachEntry(f: Fs, i: nat, k: nat, b: nat)
    requires f.Valid() && i < |f.inodes| && NDIRECT < k < NSLOTS && f.Ptr(i, k) == 0
    requires f.inodes[i].addrs[NDIRECT] != 0
    requires f.sb.datastart <= b < f.sb.size && f.Used(b) && Unowned(f, b)
    ensures f.inodes[i].addrs[NDIRECT] < |f.blocks|
    ensures var g := f.Attach(i, k, b);
            && g.Valid() && PtrsPlus(f, g, i, k, b) && SameUsed(f, g)
            && forall c :: 0 <= c < f.sb.size && c != f.inodes[i].addrs[NDIRECT] ==> g.blocks[c] == f.blocks[c]
  {
    hide Word, Bit;
    IndirectOwned(f, i);
    var d := f.inodes[i].addrs[NDIRECT];
    var g := f.Attach(i, k, b);
    forall j, l | f.IsSlot(j, l)
      ensures g.Ptr(j, l) == if j == i && l == k then b else f.Ptr(j, l)
    {
      IndirectOwned(f, j);
      if j != i {
        assert f.IsSlot(i, NDIRECT) && f.IsSlot(j, NDIRECT);
      }
    }
    PlusValid(f, g, i, k, b);
  }

  /** Overwriting a data block an inode maps changes no pointer and no bit. */
  lemma PutData(f: Fs, i: nat, k: nat, data: Block)
    requires f.Valid() && f.IsSlot(i, k) && k != NDIRECT && f.Ptr(i, k) != 0
    ensures f.Ptr(i, k) < |f.blocks|
    ensures var g := f.Put(f.Ptr(i, k), data);
            g.Valid() && SamePtrs(f, g) && SameUsed(f, g)
  {
    hide Word, Bit;
    var b := f.Ptr(i, k);
    assert f.sb.datastart <= b < f.sb.size;
    var g := f.Put(b, data);
    forall j: nat | j < |f.inodes|
      ensures f.inodes[j].addrs[NDIRECT] != b
    {
      IndirectOwned(f, j);
      assert f.IsSlot(j, NDIRECT);
    }
    SamePtrsIf(f, g);
    StillValid(f, g);
  }

  lemma FreeBits(f: Fs, b: nat)
    requires f.Shape() && b < f.sb.size && f.Used(b)
    ensures var g := f.Free(b);
            && g.Shape() && g.inodes == f.inodes
            && (forall c :: f.sb.datastart <= c < f.sb.size ==> g.blocks[c] == f.blocks[c])
            && (forall c :: 0 <= c < f.sb.size ==> g.Used(c) == (f.Used(c) && c != b))
  {
    hide Bit;
    var g := f.Free(b);
    forall c | 0 <= c < f.sb.size
      ensures g.Used(c) == (f.Used(c) && c != b)
    {
      if f.sb.BitmapBlock(c) == f.sb.BitmapBlock(b) && c != b {
        assert c % BPB != b % BPB;
      }
    }
  }

  // ----- the inode blocks

  /** The blocks before the bitmap are the same. */
  ghost predicate SameFront(f: Fs, g: Fs) {
    && |f.blocks| == |g.blocks| && f.sb == g.sb
    && forall c :: 0 <= c < f.sb.bmapstart && c < |f.blocks| ==> g.blocks[c] == f.blocks[c]
  }

  lemma SameFrontTransitive(f: Fs, g: Fs, h: Fs)
    requires SameFront(f, g) && SameFront(g, h)
    ensures SameFront(f, h)
  {
  }

  /** While the inode blocks and inode i stand, so does its copy. */
  lemma StillStored(f: Fs, g: Fs, i: nat)
    requires f.Shape() && g.Shape() && SameFront(f, g)
    requires i < |f.inodes| && i < |g.inodes| && g.inodes[i] == f.inodes[i]
    ensures f.sb.InodeBlock(i) < f.sb.bmapstart
    ensures f.Stored(i) <==> g.Stored(i)
  {
    assert i / IPB <= |f.inodes| / IPB;
  }

  lemma CanStore(f: Fs, i: nat)
    requires f.Valid() && i < |f.inodes|
    ensures Storable(f.inodes[i]) && f.sb.InodeBlock(i) < f.sb.bmapstart
  {
    assert i / IPB <= |f.inodes| / IPB;
    forall k | 0 <= k <= NDIRECT
      ensures f.inodes[i].addrs[k] < WORDMAX
    {
      assert f.IsSlot(i, k) && f.Ptr(i, k) == f.inodes[i].addrs[k];
    }
  }

  /** iupdate stores inode i and changes nothing else. */
  lemma StoreEffect(f: Fs, i: nat)
    requires f.Valid() && i < |f.inodes|
    ensures Storable(f.inodes[i]) && f.sb.InodeBlock(i) < |f.blocks|
    ensures var g := f.Store(i);
            && g.Valid() && SamePtrs(f, g) && SameUsed(f, g) && g.inodes == f.inodes
            && (forall c :: f.sb.bmapstart <= c < f.sb.size ==> g.blocks[c] == f.blocks[c])
            && g.Stored(i) && forall j :: 0 <= j < |f.inodes| && j != i ==> (g.Stored(j) <==> f.Stored(j))
  {
    CanStore(f, i);
    hide Word, Bit, InodeIn, StoreInode;
    var g := f.Store(i);
    forall j: nat | j < |f.inodes|
      ensures f.inodes[j].addrs[NDIRECT] == 0 || f.sb.datastart <= f.inodes[j].addrs[NDIRECT] < f.sb.size
    {
      IndirectOwned(f, j);
    }
    SamePtrsIf(f, g);
    StillValid(f, g);
  }
}
