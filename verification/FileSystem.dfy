/**
 Allocation, block mapping, truncation, reading and writing of kernel/fs.c, and filewrite's
 chunking in kernel/file.c, over the cache's block map. `logged` collects the blocks passed
 to log_write since begin_op. A method returns ok == false where the kernel panics.
 */
module FileSystem {
  import opened Params
  import opened FsBytes
  import opened FsState
  import opened FsSpace
  import opened FsLogs

  /**
   g keeps what f holds: every pointer, every mapped data block, all sizes, and all slots
   of inodes other than i.
   */
  ghost predicate Keeps(f: Fs, g: Fs, i: nat) {
    && f.Valid() && g.Valid() && f.sb == g.sb && |f.inodes| == |g.inodes|
    && (forall j :: 0 <= j < |f.inodes| ==> f.inodes[j].size == g.inodes[j].size)
    && (forall j, l :: f.IsSlot(j, l) && (j != i || f.Ptr(j, l) != 0) ==> g.Ptr(j, l) == f.Ptr(j, l))
    && (forall j, l :: f.IsSlot(j, l) && l != NDIRECT && f.Ptr(j, l) != 0 ==>
          g.blocks[f.Ptr(j, l)] == f.blocks[f.Ptr(j, l)])
  }

  lemma KeepsTransitive(f: Fs, g: Fs, h: Fs, i: nat)
    requires Keeps(f, g, i) && Keeps(g, h, i)
    ensures Keeps(f, h, i)
  {
    hide Fs.Ptr, Fs.Used;
  }

  lemma KeepsValid(f: Fs, g: Fs, i: nat)
    requires Keeps(f, g, i)
    ensures g.Valid() && g.sb == f.sb && |g.inodes| == |f.inodes|
  {
  }

  lemma AllocKeeps(f: Fs, b: nat, i: nat)
    requires f.Valid() && b < f.sb.size && !f.Used(b)
    ensures Keeps(f, f.Alloc(b), i)
  {
    hide Fs.Ptr, Fs.Used, Fs.Alloc;
    AllocEffect(f, b);
  }

  lemma AttachKeeps(f: Fs, g: Fs, i: nat, k: nat, b: nat)
    requires f.Valid() && g.Valid() && i < |f.inodes| && k < NSLOTS && PtrsPlus(f, g, i, k, b) && f.Ptr(i, k) == 0
    requires forall c :: 0 <= c < f.sb.size && c != f.inodes[i].addrs[NDIRECT] ==> g.blocks[c] == f.blocks[c]
    ensures Keeps(f, g, i)
  {
    hide Fs.Used, Word;
    assert f.IsSlot(i, NDIRECT);
  }

  lemma SameFrontSelf(f: Fs)
    ensures SameFront(f, f)
  {
  }

  lemma AllocFront(f: Fs, b: nat)
    requires f.Shape() && f.sb.datastart <= b < f.sb.size && !f.Used(b)
    ensures SameFront(f, f.Alloc(b))
  {
  }

  lemma AttachFront(f: Fs, g: Fs, i: nat)
    requires f.Valid() && g.Shape() && f.sb == g.sb && i < |f.inodes|
    requires forall c :: 0 <= c < f.sb.size && c != f.inodes[i].addrs[NDIRECT] ==> g.blocks[c] == f.blocks[c]
    requires f.inodes[i].addrs[NDIRECT] == 0 ==> g.blocks == f.blocks
    ensures SameFront(f, g)
  {
    IndirectOwned(f, i);
  }

  lemma PutFront(f: Fs, i: nat, k: nat, data: Block)
    requires f.Valid() && f.IsSlot(i, k) && f.Ptr(i, k) != 0
    ensures f.Ptr(i, k) < |f.blocks| && SameFront(f, f.Put(f.Ptr(i, k), data))
  {
  }

  lemma FreeFront(f: Fs, b: nat)
    requires f.Shape() && b < f.sb.size && f.Used(b)
    ensures SameFront(f, f.Free(b))
  {
  }

  /** iupdate changes no file and no bit. */
  lemma StoreKeeps(f: Fs, i: nat)
    requires f.Valid() && i < |f.inodes|
    ensures Storable(f.inodes[i]) && f.sb.InodeBlock(i) < |f.blocks|
    ensures var g := f.Store(i);
            && g.Valid() && g.inodes == f.inodes && g.sb == f.sb
            && (forall j :: 0 <= j < |f.inodes| ==> g.Content(j) == f.Content(j))
            && (forall b :: 0 <= b < f.sb.size ==> g.Used(b) == f.Used(b))
            && g.Stored(i) && forall j :: 0 <= j < |f.inodes| && j != i ==> (g.Stored(j) <==> f.Stored(j))
  {
    StoreEffect(f, i);
    hide Fs.Ptr, Fs.Used, Fs.Owned, Fs.Stored, Fs.Store, Fs.Content;
    var g := f.Store(i);
    forall j: nat, x: nat | j < |f.inodes| && x < f.inodes[j].size
      ensures g.ByteAt(j, x) == f.ByteAt(j, x)
    {
      StoredByte(f, g, j, x);
    }
    forall j: nat | j < |f.inodes|
      ensures g.Content(j) == f.Content(j)
    {
    }
  }

  lemma StoredByte(f: Fs, g: Fs, j: nat, x: nat)
    requires f.Valid() && g.Valid() && SamePtrs(f, g) && j < |f.inodes| && x < MAXFILE * BSIZE
    requires forall c :: f.sb.bmapstart <= c < f.sb.size ==> g.blocks[c] == f.blocks[c]
    ensures g.ByteAt(j, x) == f.ByteAt(j, x)
  {
    hide Fs.Ptr, Fs.Used;
    assert f.IsSlot(j, Slot(x / BSIZE));
  }

  function Min(a: int, b: int): int { if a < b then a else b }

  /** bp with part written at offset o. */
  function Overlay(bp: Block, o: nat, part: seq<Byte>): (r: Block)
    requires o + |part| <= BSIZE
    ensures forall x :: 0 <= x < BSIZE ==> r[x] == if o <= x < o + |part| then part[x - o] else bp[x]
  {
    bp[..o] + part + bp[o + |part|..]
  }

  /** f kept everything f0 held, other than the bytes of inode i. */
  ghost predicate OthersKept(f0: Fs, f: Fs, i: nat) {
    && f0.Valid() && f.Valid() && f0.sb == f.sb && i < |f0.inodes| == |f.inodes|
    && (forall j :: 0 <= j < |f.inodes| ==> f.inodes[j].size == f0.inodes[j].size)
    && (forall j, l :: f0.IsSlot(j, l) && (j != i || f0.Ptr(j, l) != 0) ==> f.Ptr(j, l) == f0.Ptr(j, l))
    && (forall j, l :: f0.IsSlot(j, l) && j != i && l != NDIRECT && f0.Ptr(j, l) != 0 ==>
          f.blocks[f0.Ptr(j, l)] == f0.blocks[f0.Ptr(j, l)])
  }

  /** Byte x of inode i after tot bytes of src went to off0. */
  ghost predicate ByteWritten(f0: Fs, f: Fs, i: nat, off0: nat, src: seq<Byte>, tot: nat, x: nat)
    requires f0.Shape() && f.Shape() && i < |f0.inodes| == |f.inodes| && tot <= |src| && x < MAXFILE * BSIZE
  {
    if off0 <= x < off0 + tot then f.Ptr(i, Slot(x / BSIZE)) != 0 && f.ByteAt(i, x) == src[x - off0]
    else f0.Ptr(i, Slot(x / BSIZE)) != 0 ==> f.ByteAt(i, x) == f0.ByteAt(i, x)
  }

  /**
   f is f0 after writei stored the first tot bytes of src at off0 in inode i, mapping blocks
   where needed and touching nothing else.
   */
  ghost predicate Writing(f0: Fs, f: Fs, i: nat, off0: nat, src: seq<Byte>, tot: nat) {
    && OthersKept(f0, f, i)
    && tot <= |src| && off0 + |src| <= MAXFILE * BSIZE
    && (forall x :: 0 <= x < MAXFILE * BSIZE ==> ByteWritten(f0, f, i, off0, src, tot, x))
  }

  lemma KeptByte(f: Fs, g: Fs, i: nat, x: nat)
    requires Keeps(f, g, i) && i < |f.inodes| && x < MAXFILE * BSIZE && f.Ptr(i, Slot(x / BSIZE)) != 0
    ensures g.Ptr(i, Slot(x / BSIZE)) != 0 && g.ByteAt(i, x) == f.ByteAt(i, x)
  {
    hide Fs.Ptr, Fs.Used;
    assert f.IsSlot(i, Slot(x / BSIZE));
  }

  /** Overwriting the block of file block bn changes exactly that block's bytes. */
  lemma PutByte(g: Fs, i: nat, bn: nat, data: Block, x: nat)
    requires g.Valid() && i < |g.inodes| && bn < MAXFILE && g.Ptr(i, Slot(bn)) != 0 && x < MAXFILE * BSIZE
    ensures g.IsSlot(i, Slot(bn)) && g.Ptr(i, Slot(bn)) < |g.blocks|
    ensures var h := g.Put(g.Ptr(i, Slot(bn)), data);
            && h.Shape()
            && h.Ptr(i, Slot(x / BSIZE)) == g.Ptr(i, Slot(x / BSIZE))
            && h.ByteAt(i, x) == if x / BSIZE == bn then data[x % BSIZE] else g.ByteAt(i, x)
  {
    hide Fs.Ptr, Fs.Used;
    PutData(g, i, Slot(bn), data);
    assert g.IsSlot(i, Slot(bn)) && g.IsSlot(i, Slot(x / BSIZE));
  }

  lemma PutOthers(f0: Fs, f: Fs, g: Fs, i: nat, bn: nat, data: Block)
    requires OthersKept(f0, f, i) && Keeps(f, g, i) && bn < MAXFILE && g.Ptr(i, Slot(bn)) != 0
    ensures g.Ptr(i, Slot(bn)) < |g.blocks|
    ensures OthersKept(f0, g.Put(g.Ptr(i, Slot(bn)), data), i)
  {
    hide Fs.Ptr, Fs.Used;
    assert g.IsSlot(i, Slot(bn));
    PutData(g, i, Slot(bn), data);
  }

  /** One more block: bmap gave g, then the block of byte off0 + tot is overlaid with part of src. */
  lemma WritingStep(f0: Fs, f: Fs, g: Fs, i: nat, off0: nat, src: seq<Byte>, tot: nat, m: nat)
    requires Writing(f0, f, i, off0, src, tot) && Keeps(f, g, i)
    requires tot + m <= |src| && m > 0 && (off0 + tot) % BSIZE + m <= BSIZE
    requires g.Ptr(i, Slot((off0 + tot) / BSIZE)) != 0
    ensures g.Ptr(i, Slot((off0 + tot) / BSIZE)) < |g.blocks|
    ensures var b := g.Ptr(i, Slot((off0 + tot) / BSIZE));
            Writing(f0, g.Put(b, Overlay(g.blocks[b], (off0 + tot) % BSIZE, src[tot..tot + m])), i, off0, src, tot + m)
  {
    hide Fs.Ptr, Fs.Used, Fs.ByteAt;
    var bn := (off0 + tot) / BSIZE;
    PutByteBound(f, g, i, bn);
    var b := g.Ptr(i, Slot(bn));
    var data := Overlay(g.blocks[b], (off0 + tot) % BSIZE, src[tot..tot + m]);
    PutOthers(f0, f, g, i, bn, data);
    var h, t := g.Put(b, data), tot + m;
    forall x | 0 <= x < MAXFILE * BSIZE
      ensures ByteWritten(f0, h, i, off0, src, t, x)
    {
      assert ByteWritten(f0, f, i, off0, src, tot, x);
      WritingByte(f0, f, g, i, off0, src, tot, m, x);
    }
  }

  lemma PutByteBound(f: Fs, g: Fs, i: nat, bn: nat)
    requires Keeps(f, g, i) && i < |g.inodes| && bn < MAXFILE && g.Ptr(i, Slot(bn)) != 0
    ensures g.Valid() && g.Ptr(i, Slot(bn)) < |g.blocks|
  {
    assert g.IsSlot(i, Slot(bn));
  }

  lemma WritingByte(f0: Fs, f: Fs, g: Fs, i: nat, off0: nat, src: seq<Byte>, tot: nat, m: nat, x: nat)
    requires OthersKept(f0, f, i) && Keeps(f, g, i) && x < MAXFILE * BSIZE
    requires tot + m <= |src| && m > 0 && (off0 + tot) % BSIZE + m <= BSIZE && off0 + |src| <= MAXFILE * BSIZE
    requires ByteWritten(f0, f, i, off0, src, tot, x)
    requires g.Ptr(i, Slot((off0 + tot) / BSIZE)) != 0 && g.Ptr(i, Slot((off0 + tot) / BSIZE)) < |g.blocks|
    ensures var b := g.Ptr(i, Slot((off0 + tot) / BSIZE));
            var h := g.Put(b, Overlay(g.blocks[b], (off0 + tot) % BSIZE, src[tot..tot + m]));
            h.Shape() && ByteWritten(f0, h, i, off0, src, tot + m, x)
  {
    hide Fs.Ptr, Fs.Used;
    var bn := (off0 + tot) / BSIZE;
    var b := g.Ptr(i, Slot(bn));
    var data := Overlay(g.blocks[b], (off0 + tot) % BSIZE, src[tot..tot + m]);
    PutByte(g, i, bn, data, x);
    assert f0.IsSlot(i, Slot(x / BSIZE));
    if f.Ptr(i, Slot(x / BSIZE)) != 0 {
      KeptByte(f, g, i, x);
    }
  }

  class Volume {
    const sb: Super
    var blocks: seq<Block>
    var inodes: seq<Inode>
    ghost var logged: set<nat>

    constructor (fs: Fs)
      ensures S() == fs && logged == {}
    {
      sb := fs.sb;
      blocks := fs.blocks;
      inodes := fs.inodes;
      logged := {};
    }

    ghost function S(): Fs
      reads this
    {
      Fs(sb, blocks, inodes)
    }

    /** log_write(bp) after changing bp->data: the block map now holds data. */
    method Log(b: nat, data: Block)
      requires b < |blocks|
      modifies this`blocks, this`logged
      ensures blocks == old(blocks)[b := data] && logged == old(logged) + {b}
    {
      blocks := blocks[b := data];
      logged := logged + {b};
    }

    /** balloc: the lowest free block, marked used and zeroed; panics exactly when there is none. */
    method Balloc() returns (ok: bool, b: nat)
      requires S().Shape()
      modifies this`blocks, this`logged
      ensures ok ==> b < sb.size && !old(S()).Used(b) && S() == old(S()).Alloc(b)
      ensures ok ==> forall c :: 0 <= c < b ==> old(S()).Used(c)
      ensures ok ==> logged == old(logged) + {sb.BitmapBlock(b), b}
      ensures !ok ==> S() == old(S()) && logged == old(logged)
      ensures !ok <==> forall c :: 0 <= c < sb.size ==> old(S()).Used(c)
    {
      hide Fs.Used, Fs.Alloc;
      var start := 0;
      while start < sb.size
        invariant start % BPB == 0
        invariant S() == old(S()) && logged == old(logged)
        invariant forall c :: 0 <= c < start && c < sb.size ==> S().Used(c)
      {
        var bi := ScanBlock(start);
        if bi < BPB && start + bi < sb.size {
          Mark(start, bi);
          return true, start + bi;
        }
        start := start + BPB;
      }
      return false, 0;
    }

    /** balloc's inner loop: the first clear bit of the bitmap block at start. */
    method ScanBlock(start: nat) returns (bi: nat)
      requires S().Shape() && start % BPB == 0 && start < sb.size
      ensures bi <= BPB && forall c :: start <= c < start + bi && c < sb.size ==> S().Used(c)
      ensures bi < BPB && start + bi < sb.size ==> !S().Used(start + bi)
      ensures bi < BPB ==> start + bi <= sb.size
    {
      hide Bit;
      var bp := blocks[sb.BitmapBlock(start)];
      bi := 0;
      while bi < BPB && start + bi < sb.size
        invariant 0 <= bi <= BPB && (bi > 0 ==> start + bi <= sb.size)
        invariant forall c :: start <= c < start + bi && c < sb.size ==> S().Used(c)
      {
        assert sb.BitmapBlock(start + bi) == sb.BitmapBlock(start) && (start + bi) % BPB == bi;
        if !Bit(bp, bi) { return; }
        bi := bi + 1;
      }
    }

    /** Bit bi of the bitmap block at start is set, and its block zeroed. */
    method Mark(start: nat, bi: nat)
      requires S().Shape() && start % BPB == 0 && bi < BPB && start + bi < sb.size && !S().Used(start + bi)
      modifies this`blocks, this`logged
      ensures S() == old(S()).Alloc(start + bi)
      ensures logged == old(logged) + {sb.BitmapBlock(start + bi), start + bi}
    {
      assert sb.BitmapBlock(start + bi) == sb.BitmapBlock(start) && (start + bi) % BPB == bi;
      hide Bit, SetBit, Zero;
      var bp := blocks[sb.BitmapBlock(start)];
      Log(sb.BitmapBlock(start), SetBit(bp, bi));
      Log(start + bi, Zero());
    }

    /** balloc into an empty slot of inode i; the indirect block is logged when a word of it changes. */
    method AllocSlot(i: nat, k: nat) returns (ok: bool, b: nat)
      requires S().Valid() && i < |inodes| && k < NSLOTS && S().Ptr(i, k) == 0
      requires k > NDIRECT ==> inodes[i].addrs[NDIRECT] != 0
      modifies this`blocks, this`inodes, this`logged
      ensures ok <==> Frees(old(S())) != {}
      ensures ok ==> Keeps(old(S()), S(), i) && PtrsPlus(old(S()), S(), i, k, b)
      ensures ok ==> b in Frees(old(S())) && Frees(S()) == Frees(old(S())) - {b}
      ensures ok ==> sb.datastart <= b < sb.size && !old(S()).Used(b)
      ensures ok ==> blocks[b] == Zero() && SameFront(old(S()), S())
      ensures ok ==> logged == old(logged) + {sb.BitmapBlock(b), b}
                               + if k > NDIRECT then {old(inodes)[i].addrs[NDIRECT]} else {}
      ensures !ok ==> S() == old(S()) && logged == old(logged)
    {
      hide Fs.Used, Word, Zero, SetWord, Fs.Owned, Fs.NoHoles, SameFront, Keeps, Frees;
      ghost var f := S();
      NoFrees(f);
      ok, b := Balloc();
      if !ok { return; }
      FreeIs(f, b);
      AllocEffect(f, b);
      AllocFront(f, b);
      AllocKeeps(f, b, i);
      ghost var g := S();
      if k <= NDIRECT {
        AttachDirect(g, i, k, b);
        inodes := inodes[i := Inode(inodes[i].size, inodes[i].addrs[k := b])];
      } else {
        AttachEntry(g, i, k, b);
        var d := inodes[i].addrs[NDIRECT];
        assert g.IsSlot(i, NDIRECT) && g.Ptr(i, NDIRECT) == d != b;
        Log(d, SetWord(blocks[d], k - NDIRECT - 1, b));
      }
      AttachKeeps(g, S(), i, k, b);
      AttachFront(g, S(), i);
      OneTaken(f, S(), b);
      KeepsTransitive(f, g, S(), i);
      SameFrontTransitive(f, g, S());
    }

    /** bmap: the block that holds file block bn, allocated (and the indirect block too) if missing. */
    method Bmap(i: nat, bn: nat) returns (ok: bool, addr: nat)
      requires S().Valid() && i < |inodes|
      modifies this`blocks, this`inodes, this`logged
      ensures ok <==> bn < MAXFILE && |Frees(old(S()))| >= Lacks(old(S()), i, bn)
      ensures ok ==> OneMapped(old(S()), S(), i, bn)
      ensures ok ==> bn < MAXFILE && Keeps(old(S()), S(), i) && SameFront(old(S()), S())
      ensures ok ==> addr == S().Ptr(i, Slot(bn)) != 0
      ensures ok && bn < 12 ==> addr == inodes[i].addrs[bn]
      ensures ok && bn >= 12 ==> inodes[i].addrs[12] < |blocks| && addr == Word(blocks[inodes[i].addrs[12]], bn - 12)
      ensures ok ==> forall k :: 0 <= k < NSLOTS && k != Slot(bn) && k != NDIRECT ==>
                S().Ptr(i, k) == old(S()).Ptr(i, k)
      ensures ok && old(S()).Ptr(i, Slot(bn)) == 0 ==> blocks[addr] == Zero()
      ensures ok && old(S()).Ptr(i, Slot(bn)) != 0 ==> S() == old(S())
      ensures ok ==> logged == old(logged) + BmapLogs(old(S()), S(), i, bn)
      ensures bn < MAXFILE && old(S()).Ptr(i, Slot(bn)) != 0 ==> ok
    {
      hide Frees, Fs.Used, Word, Zero, SetWord, Fs.Owned, Fs.NoHoles, SameFront, OneMapped, PtrsPlus, Lacks;
      ghost var f := S();
      SameFrontSelf(f);
      if bn < NDIRECT {
        addr := inodes[i].addrs[bn];
        ok := true;
        if addr == 0 {
          ok, addr := MapSlot(i, bn);
        } else {
          AlreadyMapped(f, i, bn);
        }
      } else if bn < MAXFILE {
        ok, addr := true, inodes[i].addrs[NDIRECT];
        if addr == 0 {
          ok, addr := MapIndirect(i, bn);
          return;
        }
        IndirectOwned(f, i);
        addr := Word(blocks[addr], bn - NDIRECT);
        if addr == 0 {
          ok, addr := MapSlot(i, bn);
        } else {
          AlreadyMapped(f, i, bn);
        }
      } else {
        ok, addr := false, 0;
      }
    }

    /** bmap of a missing file block with the indirect block in place. */
    method MapSlot(i: nat, bn: nat) returns (ok: bool, b: nat)
      requires S().Valid() && i < |inodes| && bn < MAXFILE && S().Ptr(i, Slot(bn)) == 0
      requires bn >= NDIRECT ==> inodes[i].addrs[NDIRECT] != 0
      modifies this`blocks, this`inodes, this`logged
      ensures ok <==> |Frees(old(S()))| >= Lacks(old(S()), i, bn)
      ensures Lacks(old(S()), i, bn) == 1 && (ok ==> OneMapped(old(S()), S(), i, bn))
      ensures ok ==> Keeps(old(S()), S(), i) && SameFront(old(S()), S()) && b == S().Ptr(i, Slot(bn)) != 0
      ensures ok ==> forall k :: 0 <= k < NSLOTS && k != Slot(bn) ==> S().Ptr(i, k) == old(S()).Ptr(i, k)
      ensures ok ==> blocks[b] == Zero() && logged == old(logged) + BmapLogs(old(S()), S(), i, bn)
    {
      hide Frees, Fs.Used, Word, Zero, SetWord, Fs.Owned, Fs.NoHoles, SameFront, OneMapped, Keeps, Fs.Ptr, Lacks;
      ghost var f := S();
      DirectSlot(f, i, NDIRECT);
      SlotLacks(f, i, bn);
      ok, b := AllocSlot(i, Slot(bn));
      if ok {
        assert f.IsSlot(i, Slot(bn)) && forall k :: 0 <= k < NSLOTS ==> f.IsSlot(i, k);
        SlotMapped(f, S(), i, bn, b);
        KeepsValid(f, S(), i);
        DirectSlot(S(), i, NDIRECT);
      }
    }

    /** bmap of a file block beyond the direct ones when the indirect block is missing too. */
    method MapIndirect(i: nat, bn: nat) returns (ok: bool, b: nat)
      requires S().Valid() && i < |inodes| && NDIRECT <= bn < MAXFILE && inodes[i].addrs[NDIRECT] == 0
      modifies this`blocks, this`inodes, this`logged
      ensures ok <==> |Frees(old(S()))| >= Lacks(old(S()), i, bn)
      ensures ok ==> OneMapped(old(S()), S(), i, bn) && old(S()).Ptr(i, Slot(bn)) == 0
      ensures ok ==> Keeps(old(S()), S(), i) && SameFront(old(S()), S()) && b == S().Ptr(i, Slot(bn)) != 0
      ensures ok ==> forall k :: 0 <= k < NSLOTS && k != Slot(bn) && k != NDIRECT ==>
                S().Ptr(i, k) == old(S()).Ptr(i, k)
      ensures ok ==> blocks[b] == Zero() && logged == old(logged) + BmapLogs(old(S()), S(), i, bn)
    {
      hide Frees, Fs.Used, Word, Zero, SetWord, Fs.Owned, Fs.NoHoles, SameFront, OneMapped, Keeps, Fs.Ptr, Lacks;
      ghost var f := S();
      DirectSlot(f, i, NDIRECT);
      IndirectLacks(f, i, bn);
      var d;
      ok, d := AllocSlot(i, NDIRECT);
      if !ok { return false, 0; }
      ghost var g := S();
      KeepsValid(f, g, i);
      IndirectTaken(f, g, i, bn, d);
      DirectSlot(g, i, NDIRECT);
      ok, b := MapSlot(i, bn);
      if ok {
        BothMapped(f, g, S(), i, bn, d);
        KeepsTransitive(f, g, S(), i);
        SameFrontTransitive(f, g, S());
        KeepsValid(g, S(), i);
        DirectSlot(S(), i, NDIRECT);
        assert forall k :: 0 <= k < NSLOTS ==> f.IsSlot(i, k);
      }
    }

    /** One iteration of writei's loop: the part of src that falls into one block. */
    method WriteBlock(i: nat, ghost f0: Fs, off0: nat, src: seq<Byte>, tot: nat) returns (ok: bool, m: nat)
      requires Writing(f0, S(), i, off0, src, tot) && tot < |src|
      modifies this`blocks, this`inodes, this`logged
      ensures ok ==> m == Min(|src| - tot, BSIZE - (off0 + tot) % BSIZE)
      ensures ok ==> Writing(f0, S(), i, off0, src, tot + m) && SameFront(old(S()), S())
      ensures ok ==> S().Ptr(i, Slot((off0 + tot) / BSIZE)) != 0
      ensures ok ==> logged == old(logged) + BmapLogs(old(S()), S(), i, (off0 + tot) / BSIZE)
                               + {S().Ptr(i, Slot((off0 + tot) / BSIZE))}
      ensures ok && old(S()).Ptr(i, NDIRECT) != 0 ==> S().Ptr(i, NDIRECT) == old(S()).Ptr(i, NDIRECT)
      ensures ok <==> |Frees(old(S()))| >= Lacks(old(S()), i, (off0 + tot) / BSIZE)
      ensures ok ==> OneMapped(old(S()), S(), i, (off0 + tot) / BSIZE)
    {
      hide Frees, Fs.Ptr, Fs.Used, Fs.ByteAt, Fs.Owned, Fs.NoHoles, Overlay, SameFront;
      ghost var f := S();
      var addr;
      var bn := (off0 + tot) / BSIZE;
      ok, addr := Bmap(i, bn);
      if !ok { m := 0; return; }
      ghost var g := S();
      m := Min(|src| - tot, BSIZE - (off0 + tot) % BSIZE);
      WritingStep(f0, f, g, i, off0, src, tot, m);
      PutByteBound(f, g, i, bn);
      assert g.IsSlot(i, Slot(bn)) && f.IsSlot(i, NDIRECT);
      PutData(g, i, Slot(bn), Overlay(blocks[addr], (off0 + tot) % BSIZE, src[tot..tot + m]));
      PutMapped(f, g, g.Put(addr, Overlay(blocks[addr], (off0 + tot) % BSIZE, src[tot..tot + m])), i, bn);
      PutFront(g, i, Slot(bn), Overlay(blocks[addr], (off0 + tot) % BSIZE, src[tot..tot + m]));
      SameFrontTransitive(f, g, g.Put(addr, Overlay(blocks[addr], (off0 + tot) % BSIZE, src[tot..tot + m])));
      Log(addr, Overlay(blocks[addr], (off0 + tot) % BSIZE, src[tot..tot + m]));
    }

    /** iupdate: the size and the addresses of inode i go to its slot in the inode block. */
    method Iupdate(i: nat)
      requires S().Valid() && i < |inodes|
      modifies this`blocks, this`logged
      ensures Storable(old(inodes)[i]) && sb.InodeBlock(i) < |old(blocks)|
      ensures S() == old(S()).Store(i) && logged == old(logged) + {sb.InodeBlock(i)}
      ensures var b, at := sb.inodestart + i / 16, i % 16 * 16 + 2;
              && b < |blocks| && blocks == old(blocks)[b := blocks[b]]
              && forall j :: 0 <= j < 256 ==>
                   Word(blocks[b], j) == if j == at then inodes[i].size
                                         else if at < j <= at + 13 then inodes[i].addrs[j - at - 1]
                                         else Word(old(blocks)[b], j)
    {
      CanStore(S(), i);
      Log(sb.InodeBlock(i), StoreInode(blocks[sb.InodeBlock(i)], i % IPB, inodes[i]));
    }

    /**
     writei, with both copies succeeding: -1 and no effect for an offset beyond the end, a
     wrapping or too long range; otherwise the file's bytes are spliced with src at off and
     no byte of any other file changes. The inode is written through to its inode block, and
     the disk's copies of others stand. A chunk of filewrite logs at most MAXOPBLOCKS blocks.
     */
    method Writei(i: nat, off: nat, src: seq<Byte>) returns (ok: bool, r: int)
      requires S().Valid() && i < |inodes| && off < WORDMAX && |src| < WORDMAX
      modifies this`blocks, this`inodes, this`logged
      ensures ok && r < 0 <==> BadRange(old(inodes)[i].size, off, |src|)
      ensures ok && r < 0 ==> r == -1 && S() == old(S())
      ensures ok && r <= 0 ==> logged == old(logged)
      ensures ok && r >= 0 ==> r == |src| && S().Valid() && |inodes| == |old(inodes)|
      ensures ok && r >= 0 ==> S().Content(i) == Splice(old(S()).Content(i), off, src)
      ensures ok && r >= 0 ==> forall j :: 0 <= j < |inodes| && j != i ==> S().Content(j) == old(S()).Content(j)
      ensures ok && r > 0 ==>
                && MappedTo(old(S()), S(), i, off / BSIZE, EndBlock(off, |src|))
                && var data := Logs(old(S()), S(), i, off / BSIZE, EndBlock(off, |src|));
                   logged == old(logged) + data + {sb.InodeBlock(i)}
      ensures ok && |src| <= CHUNK ==> |logged| <= |old(logged)| + MAXOPBLOCKS
      ensures !BadRange(old(inodes)[i].size, off, |src|) ==>
                (ok <==> |Frees(old(S()))| >= Takes(old(S()), i, off, |src|))
      ensures ok && r >= 0 ==>
                forall j :: 0 <= j < |inodes| && (old(S()).Stored(j) || (j == i && r > 0)) ==> S().Stored(j)
    {
      hide Fs.Ptr, Fs.Used, Fs.Owned, Fs.NoHoles, Fs.Content, Writing, SameFront, Fs.Stored, Fs.Store;
      hide Frees, Lacking, MappedTo, Logs, Splice;
      ghost var f0, before := S(), logged;
      if off > inodes[i].size || (off + |src|) % WORDMAX < off {
        return true, -1;
      }
      if (off + |src|) % WORDMAX > MAXFILE * BSIZE {
        return true, -1;
      }
      ok := WriteLoop(i, off, src);
      if !ok { r := 0; return; }
      ghost var f := S();
      UpdateInode(f0, i, off, src);
      if |src| > 0 {
        MappedSame(f0, f, S(), i, off / BSIZE, EndBlock(off, |src|));
        LogsSame(f0, f, S(), i, off / BSIZE, EndBlock(off, |src|));
        ghost var ls := Logs(f0, S(), i, off / BSIZE, EndBlock(off, |src|));
        Join(before, ls, sb.InodeBlock(i));
        if |src| <= CHUNK { LogsChunk(f0, S(), i, off, |src|, sb.InodeBlock(i)); }
      }
      r := |src|;
    }

    /** The end of writei, with src stored from off on: the new size and iupdate. */
    method UpdateInode(ghost f0: Fs, i: nat, off: nat, src: seq<Byte>)
      requires Writing(f0, S(), i, off, src, |src|) && off <= f0.inodes[i].size && SameFront(f0, S())
      requires |src| == 0 ==> S() == f0
      modifies this`blocks, this`inodes, this`logged
      ensures SameSpace(old(S()), S(), i)
      ensures S().Valid() && |inodes| == |f0.inodes| && S().Content(i) == Splice(f0.Content(i), off, src)
      ensures forall j :: 0 <= j < |inodes| && j != i ==> S().Content(j) == f0.Content(j)
      ensures forall j :: 0 <= j < |inodes| && (f0.Stored(j) || (j == i && |src| > 0)) ==> S().Stored(j)
      ensures logged == old(logged) + if |src| > 0 then {sb.InodeBlock(i)} else {}
    {
      hide Fs.Ptr, Fs.Used, Fs.Owned, Fs.NoHoles, Fs.Content, Writing, SameFront, Fs.Stored, Fs.Store;
      hide Frees, SameSpace;
      ghost var f := S();
      WritingDone(f0, f, i, off, src);
      WritingStored(f0, f, i, off, src);
      GrownSpace(f0, f, i, off, src);
      if |src| > 0 {
        if off + |src| > inodes[i].size {
          inodes := inodes[i := Inode(off + |src|, inodes[i].addrs)];
        }
        ghost var g := S();
        assert g == Grown(f, i, off + |src|);
        StoreKeeps(g, i);
        StoreSpace(f, g, i);
        Iupdate(i);
      }
    }

    /** writei's loop over the blocks that src covers. */
    method WriteLoop(i: nat, off: nat, src: seq<Byte>) returns (ok: bool)
      requires S().Valid() && i < |inodes| && off <= inodes[i].size && off + |src| <= MAXFILE * BSIZE
      modifies this`blocks, this`inodes, this`logged
      ensures ok ==> Writing(old(S()), S(), i, off, src, |src|) && SameFront(old(S()), S())
      ensures ok && |src| == 0 ==> S() == old(S()) && logged == old(logged)
      ensures ok <==> |Frees(old(S()))| >= Takes(old(S()), i, off, |src|)
      ensures ok && |src| > 0 ==>
                && MappedTo(old(S()), S(), i, off / BSIZE, EndBlock(off, |src|))
                && logged == old(logged) + Logs(old(S()), S(), i, off / BSIZE, EndBlock(off, |src|))
    {
      ghost var f0, start := S(), logged;
      hide Fs.Ptr, Fs.Used, Fs.Owned, Fs.NoHoles, BmapLogs, SameFront, Frees, MappedTo, Lacking, OneMapped, Lacks;
      hide ByteWritten, Fs.ByteAt;
      WritingNothing(f0, i, off, src);
      SameFrontSelf(f0);
      ok := true;
      var tot := 0;
      ghost var lo: nat, cur: nat := off / BSIZE, off / BSIZE;
      MappedStart(f0, i, lo);
      while tot < |src|
        invariant 0 <= tot <= |src| && Writing(f0, S(), i, off, src, tot) && SameFront(f0, S())
        invariant tot == 0 ==> S() == f0 && logged == start
        invariant MappedTo(f0, S(), i, lo, cur) && AtBlock(off, tot, |src|, cur)
        invariant lo <= cur <= MAXFILE && logged == start + Logs(f0, S(), i, lo, cur)
      {
        ghost var f := S();
        var m;
        RangeFits(off, tot, |src|, cur);
        LacksNext(f0, f, i, lo, cur);
        LackingGrows(f0, i, lo, cur + 1, EndBlock(off, |src|));
        MappedFrees(f0, f, i, lo, cur);
        ok, m := WriteBlock(i, f0, off, src, tot);
        if !ok { return; }
        MappedStep(f0, f, S(), i, lo, cur);
        LogsStep(f0, f, S(), i, lo, cur);
        BlockDone(off, tot, m, |src|, cur);
        cur := cur + 1;
        SameFrontTransitive(f0, f, S());
        tot := tot + m;
      }
      MappedFrees(f0, S(), i, lo, cur);
    }

    /**
     readi, with the copies succeeding: -1 beyond the end or for a wrapping range, otherwise
     the file's bytes from off on, cut at the end of the file. Nothing is allocated or logged.
     */
    method Readi(i: nat, off: nat, n: nat) returns (ok: bool, r: int, dst: seq<Byte>)
      requires S().Valid() && i < |inodes| && off < WORDMAX && n < WORDMAX
      modifies this`blocks, this`inodes, this`logged
      ensures ok && S() == old(S()) && logged == old(logged)
      ensures r < 0 <==> off > inodes[i].size || off + n >= WORDMAX
      ensures r < 0 ==> r == -1
      ensures r >= 0 ==> r == |dst| && dst == S().Content(i)[off..Min(off + n, inodes[i].size)]
    {
      ok, dst := true, [];
      if off > inodes[i].size || (off + n) % WORDMAX < off {
        r := -1;
        return;
      }
      var len := if off + n > inodes[i].size then inodes[i].size - off else n;
      hide Fs.Valid, Fs.Content, Fs.Ptr;
      dst := ReadLoop(i, off, len);
      r := len;
    }

    /** readi's loop over the blocks that hold the range. */
    method ReadLoop(i: nat, off: nat, len: nat) returns (dst: seq<Byte>)
      requires S().Valid() && i < |inodes| && off + len <= inodes[i].size
      modifies this`blocks, this`inodes, this`logged
      ensures S() == old(S()) && logged == old(logged)
      ensures |dst| == len && dst == S().Content(i)[off..off + len]
    {
      ghost var f := S();
      hide Fs.Owned, Fs.NoHoles, Fs.Shape, Fs.Content, Fs.Ptr;
      dst := [];
      var tot := 0;
      while tot < len
        invariant 0 <= tot <= len
        invariant S() == f && logged == old(logged)
        invariant dst == f.Content(i)[off..off + tot]
      {
        var ok, part := ReadBlock(i, off + tot, len - tot);
        JoinSlices(f.Content(i), off, off + tot, off + tot + |part|);
        dst := dst + part;
        tot := tot + |part|;
      }
    }

    /** One round of readi: what the block of byte x holds of the n bytes from x on. */
    method ReadBlock(i: nat, x: nat, n: nat) returns (ok: bool, part: seq<Byte>)
      requires S().Valid() && i < |inodes| && n > 0 && x + n <= inodes[i].size
      modifies this`blocks, this`inodes, this`logged
      ensures ok && S() == old(S()) && logged == old(logged)
      ensures |part| == Min(n, BSIZE - x % BSIZE) && part == S().Content(i)[x..x + |part|]
    {
      hide Fs.Ptr, Fs.Used, Fs.Owned, Fs.NoHoles, Fs.Content, Keeps;
      ReadRange(S(), i, x, n);
      var addr;
      ok, addr := Bmap(i, x / BSIZE);
      var m := Min(n, BSIZE - x % BSIZE);
      part := blocks[addr][x % BSIZE..x % BSIZE + m];
    }

    /** bfree: panics exactly when the block is free already. */
    method Bfree(b: nat) returns (ok: bool)
      requires S().Shape() && b < sb.size
      modifies this`blocks, this`logged
      ensures ok <==> old(S()).Used(b)
      ensures ok ==> S() == old(S()).Free(b) && logged == old(logged) + {sb.BitmapBlock(b)}
      ensures !ok ==> S() == old(S()) && logged == old(logged)
    {
      var bp := blocks[sb.BitmapBlock(b)];
      if !Bit(bp, b % BPB) {
        return false;
      }
      Log(sb.BitmapBlock(b), ClearBit(bp, b % BPB));
      ok := true;
    }

    /** Free the block in slot k of the inode being truncated, if there is one. */
    method FreeSlot(ghost f0: Fs, i: nat, k: nat, b: nat, ghost done: set<nat>) returns (ok: bool)
      requires f0.Valid() && i < |f0.inodes| && k < NSLOTS && b == f0.Ptr(i, k) && k !in done
      requires Truncating(f0, S(), i, done)
      modifies this`blocks, this`logged
      ensures ok && Truncating(f0, S(), i, done + {k}) && SameFront(old(S()), S())
    {
      hide Fs.Ptr, Fs.Used, Fs.Owned, Fs.Free, SameFront;
      assert f0.IsSlot(i, k);
      TruncateStep(f0, S(), i, k, done);
      ok := true;
      SameFrontSelf(S());
      if b != 0 {
        FreeFront(S(), b);
        ok := Bfree(b);
      }
    }

    /**
     itrunc: frees exactly the blocks inode i owned, its indirect block included, and leaves
     it empty, on disk too. bfree's "freeing free block" panic cannot happen.
     */
    method Itrunc(i: nat) returns (ok: bool)
      requires S().Valid() && i < |inodes|
      modifies this`blocks, this`inodes, this`logged
      ensures ok && S().Valid()
      ensures inodes == old(inodes)[i := Inode(0, seq(NDIRECT + 1, _ => 0))]
      ensures forall b :: 0 <= b < sb.size ==> (S().Used(b) <==> old(S()).Used(b) && !OwnedBy(old(S()), i, b))
      ensures S().Content(i) == []
      ensures forall j :: 0 <= j < |inodes| && j != i ==> S().Content(j) == old(S()).Content(j)
      ensures forall j :: 0 <= j < |inodes| && (old(S()).Stored(j) || j == i) ==> S().Stored(j)
    {
      ghost var f0 := S();
      SameFrontSelf(f0);
      hide Fs.Ptr, Fs.Used, Fs.Owned, Fs.NoHoles, Truncating, Fs.Content, OwnedBy, SameFront, Fs.Stored, Fs.Store;
      TruncateStart(f0, i);
      ghost var done: set<nat> := {};
      ok := true;
      var addrs := inodes[i].addrs;
      var k := 0;
      while k < NDIRECT
        invariant 0 <= k <= NDIRECT && ok
        invariant forall l :: l in done <==> 0 <= l < k
        invariant Truncating(f0, S(), i, done) && inodes == old(inodes) && SameFront(f0, S())
      {
        DirectSlot(f0, i, k);
        ghost var f := S();
        ok := FreeSlot(f0, i, k, addrs[k], done);
        SameFrontTransitive(f0, f, S());
        done := done + {k};
        k := k + 1;
      }
      DirectSlot(f0, i, NDIRECT);
      if addrs[NDIRECT] != 0 {
        IndirectKept(f0, S(), i, done);
        var a := blocks[addrs[NDIRECT]];
        var j := 0;
        while j < NINDIRECT
          invariant 0 <= j <= NINDIRECT && ok
          invariant forall l :: l in done <==> 0 <= l < NDIRECT || NDIRECT < l <= NDIRECT + j
          invariant Truncating(f0, S(), i, done) && inodes == old(inodes) && SameFront(f0, S())
        {
          ghost var f := S();
          ok := FreeSlot(f0, i, NDIRECT + 1 + j, Word(a, j), done);
          SameFrontTransitive(f0, f, S());
          done := done + {NDIRECT + 1 + j};
          j := j + 1;
        }
        ghost var f := S();
        ok := FreeSlot(f0, i, NDIRECT, addrs[NDIRECT], done);
        SameFrontTransitive(f0, f, S());
        done := done + {NDIRECT};
      }
      TruncateDone(f0, S(), i, done);
      ghost var f1 := S();
      inodes := inodes[i := Inode(0, seq(NDIRECT + 1, _ => 0))];
      assert S() == Emptied(Fs(sb, blocks, old(inodes)), i);
      FrontOf(f1, S());
      SameFrontTransitive(f0, f1, S());
      TruncateStored(f0, S(), i);
      StoreKeeps(S(), i);
      Iupdate(i);
    }

    /**
     filewrite on an inode: src[..n] goes to the file in chunks of at most CHUNK bytes, each
     its own log transaction of at most MAXOPBLOCKS blocks. It returns n, or -1 as soon as
     writei refuses a chunk, having written the chunks before it. "short filewrite" cannot happen.
     */
    method Filewrite(i: nat, off: nat, src: seq<Byte>, n: int)
      returns (ok: bool, ret: int, off': nat, ghost written: nat, ghost most: nat)
      requires S().Valid() && i < |inodes| && off < WORDMAX && n <= |src| < WORDMAX
      modifies this`blocks, this`inodes, this`logged
      ensures most <= MAXOPBLOCKS
      ensures ok ==> written <= |src| && off' == off + written && S().Valid() && |inodes| == |old(inodes)|
      ensures ok ==> ret == (if written == n then n else -1)
      ensures ok && ret == -1 && n >= 0 ==> written < n && BadRange(inodes[i].size, off', Min(n - written, CHUNK))
      ensures ok ==> written == 0 || off <= |old(S()).Content(i)|
      ensures ok ==>
                var c := old(S()).Content(i);
                S().Content(i) == if written == 0 then c else Splice(c, off, src[..written])
      ensures ok ==> forall j :: 0 <= j < |inodes| && j != i ==> S().Content(j) == old(S()).Content(j)
      ensures ok ==> forall j :: 0 <= j < |inodes| && (old(S()).Stored(j) || (j == i && written > 0)) ==> S().Stored(j)
      ensures ok <==> |Frees(old(S()))| >= Space(old(S()), i, off, n)
      ensures ok ==> written == Planned(old(inodes)[i].size, off, n)
      ensures ok && written > 0 ==> MappedTo(old(S()), S(), i, off / BSIZE, EndBlock(off, written))
    {
      hide Frees, Takes, Planned, MappedTo, Filewriting, Fs.Valid, Splice, Fs.Content;
      ghost var f0 := S();
      ok, off', written, most := true, off, 0, 0;
      FilewritingStart(f0, i, off, src, n);
      var k := 0;
      while k < n
        invariant (k == 0 || 0 <= k <= n) && ok && written == k && off' == off + k && most <= MAXOPBLOCKS
        invariant Filewriting(f0, S(), i, off, src, n, k)
      {
        logged := {};   // begin_op
        var r;
        ok, r := WriteChunk(f0, i, off, src, n, k);
        if !ok { ret := 0; return; }
        most := if |logged| > most then |logged| else most;
        if r < 0 { break; }
        off' := off' + r;
        k := k + r;
        written := k;
      }
      FilewritingDone(f0, S(), i, off, src, n, k);
      ret := if k == n then n else -1;
    }

    /** One transaction of filewrite: the next chunk. */
    method WriteChunk(ghost f0: Fs, i: nat, off: nat, src: seq<Byte>, n: int, k: nat) returns (ok: bool, r: int)
      requires Filewriting(f0, S(), i, off, src, n, k) && k < n <= |src| < WORDMAX && off < WORDMAX && logged == {}
      modifies this`blocks, this`inodes, this`logged
      ensures ok ==> |logged| <= MAXOPBLOCKS && (r == -1 || 0 < r <= n - k)
      ensures ok && r >= 0 ==> Filewriting(f0, S(), i, off, src, n, k + r)
      ensures ok && r < 0 ==> S() == old(S()) && Refused(f0, S(), i, off, n, k)
      ensures !ok ==> TooFew(f0, i, off, n)
    {
      hide Fs.Content, Splice, Fs.Owned, Fs.NoHoles, Written, Fs.Stored, MappedTo, Lacking, Frees, Planned, Takes;
      hide EndBlock, Reached, Logs;
      ghost var f := S();
      ReachedSize(f0, f, i, off, k);
      PlanFits(f0.inodes[i].size, off, n);
      var n1 := Min(n - k, CHUNK);
      PlanStep(f0.inodes[i].size, off, n, k, f.inodes[i].size);
      if !BadRange(f.inodes[i].size, off + k, n1) {
        ChunkSpace(f0, f, i, off, k, n1, Planned(f0.inodes[i].size, off, n));
      }
      ok, r := Writei(i, off + k, src[k..k + n1]);
      if ok && r >= 0 {
        WrittenMore(f0, f, S(), i, off, src, k, n1);
        ReachedMore(f0, f, S(), i, off, k, n1);
      }
    }
  }

  /** f is f0 after filewrite wrote the first k of n bytes. */
  ghost predicate Filewriting(f0: Fs, f: Fs, i: nat, off: nat, src: seq<Byte>, n: int, k: nat) {
    && f.Valid() && Written(f0, f, i, off, src, k) && InPlan(f0.inodes[i].size, off, n, k) && Reached(f0, f, i, off, k)
    && off + k < WORDMAX && f.sb == f0.sb
    && forall j :: 0 <= j < |f.inodes| && (f0.Stored(j) || (j == i && k > 0)) ==> f.Stored(j)
  }

  lemma FilewritingStart(f: Fs, i: nat, off: nat, src: seq<Byte>, n: int)
    requires f.Valid() && i < |f.inodes| && off < WORDMAX
    ensures Filewriting(f, f, i, off, src, n, 0)
  {
    WrittenNothing(f, i, off, src);
  }

  /** writei refused the chunk after k bytes. */
  ghost predicate Refused(f0: Fs, f: Fs, i: nat, off: nat, n: int, k: nat) {
    && i < |f0.inodes| && i < |f.inodes| && k == Planned(f0.inodes[i].size, off, n) && k < n
    && BadRange(f.inodes[i].size, off + k, Min(n - k, CHUNK))
  }

  /** The volume has too few free blocks for what filewrite would write. */
  ghost predicate TooFew(f: Fs, i: nat, off: nat, n: int) {
    f.Shape() && i < |f.inodes| && |Frees(f)| < Space(f, i, off, n)
  }

  /** What filewrite takes. */
  function Space(f: Fs, i: nat, off: nat, n: int): nat
    requires i < |f.inodes| && |f.inodes[i].addrs| == NDIRECT + 1
  {
    PlanFits(f.inodes[i].size, off, n);
    Takes(f, i, off, Planned(f.inodes[i].size, off, n))
  }

  lemma FilewritingDone(f0: Fs, f: Fs, i: nat, off: nat, src: seq<Byte>, n: int, k: nat)
    requires Filewriting(f0, f, i, off, src, n, k) && (k >= n || Refused(f0, f, i, off, n, k)) && n <= |src|
    ensures f.Valid() && i < |f0.inodes| == |f.inodes| && k <= |src| && k == Planned(f0.inodes[i].size, off, n)
    ensures k < n ==> BadRange(f.inodes[i].size, off + k, Min(n - k, CHUNK))
    ensures k == 0 || off <= |f0.Content(i)|
    ensures f.Content(i) == if k == 0 then f0.Content(i) else Splice(f0.Content(i), off, src[..k])
    ensures forall j :: 0 <= j < |f.inodes| && j != i ==> f.Content(j) == f0.Content(j)
    ensures forall j :: 0 <= j < |f.inodes| && (f0.Stored(j) || (j == i && k > 0)) ==> f.Stored(j)
    ensures f0.Shape() && |Frees(f0)| >= Space(f0, i, off, n)
    ensures k > 0 ==> MappedTo(f0, f, i, off / BSIZE, EndBlock(off, k))
  {
    PlanFits(f0.inodes[i].size, off, n);
    ReachedFrees(f0, f, i, off, k);
    hide Fs.Content, Splice, Fs.Owned, Fs.NoHoles, Fs.Stored, MappedTo, Lacking, Frees, Takes, EndBlock;
    assert k >= n ==> k == Planned(f0.inodes[i].size, off, n);
  }

  lemma ReachedSize(f0: Fs, f: Fs, i: nat, off: nat, k: nat)
    requires Reached(f0, f, i, off, k)
    ensures f0.Shape() && i < |f0.inodes| && i < |f.inodes| && f0.inodes[i].size <= MAXFILE * BSIZE
    ensures if k == 0 then f.inodes[i].size == f0.inodes[i].size else off + k <= f.inodes[i].size
  {
  }

  /** How many of n bytes filewrite writes at off in a file of the given size: all, or whole chunks while they fit. */
  function Planned(size: nat, off: nat, n: int): nat {
    if n <= 0 || off > size || off > MAXFILE * BSIZE then 0
    else if off + n <= MAXFILE * BSIZE then n
    else (MAXFILE * BSIZE - off) / CHUNK * CHUNK
  }

  /** k bytes are written by whole chunks of the plan. */
  ghost predicate InPlan(size: nat, off: nat, n: int, k: nat) {
    k <= Planned(size, off, n) && (k % CHUNK == 0 || k == n)
  }

  lemma PlanFits(size: nat, off: nat, n: int)
    ensures Planned(size, off, n) > 0 ==> off + Planned(size, off, n) <= MAXFILE * BSIZE
    ensures Planned(size, off, n) <= if n < 0 then 0 else n
  {
  }

  /** The next chunk is refused exactly when the plan is done. */
  lemma PlanStep(size: nat, off: nat, n: nat, k: nat, at: nat)
    requires InPlan(size, off, n, k) && k < n && size <= MAXFILE * BSIZE
    requires if k == 0 then at == size else off + k <= at
    ensures var m := Min(n - k, CHUNK);
            if BadRange(at, off + k, m) then k == Planned(size, off, n) else InPlan(size, off, n, k + m)
  {
    NextWhole(k);
    if off <= size && off + n > MAXFILE * BSIZE {
      WholeChunks(MAXFILE * BSIZE - off, k);
      var p := Planned(size, off, n);
      assert p == (MAXFILE * BSIZE - off) / CHUNK * CHUNK;
      hide Planned;
      ChunkIs();
    } else {
      ChunkIs();
    }
  }

  lemma ChunkIs()
    ensures CHUNK == 3072
  {
  }

  lemma NextWhole(k: nat)
    requires k % CHUNK == 0
    ensures (k + CHUNK) % CHUNK == 0
  {
  }

  lemma WholeChunks(room: nat, k: nat)
    requires k % CHUNK == 0
    ensures var p := room / CHUNK * CHUNK; p <= room && (k <= p < k + CHUNK ==> k == p)
    ensures k + CHUNK <= room ==> k + CHUNK <= room / CHUNK * CHUNK
  {
    assert CHUNK == 3072;
  }

  /** f is f0 with the file blocks of the first k bytes from off on mapped, and the size grown to hold them. */
  ghost predicate Reached(f0: Fs, f: Fs, i: nat, off: nat, k: nat) {
    && f0.Shape() && f.Shape() && i < |f0.inodes| && i < |f.inodes|
    && if k == 0 then f == f0
       else off + k <= f.inodes[i].size && MappedTo(f0, f, i, off / BSIZE, EndBlock(off, k))
  }

  lemma ReachedMore(f0: Fs, f: Fs, g: Fs, i: nat, off: nat, k: nat, m: nat)
    requires Reached(f0, f, i, off, k) && m > 0 && MappedTo(f, g, i, (off + k) / BSIZE, EndBlock(off + k, m))
    requires off + k + m <= g.inodes[i].size
    ensures Reached(f0, g, i, off, k + m)
  {
    hide Frees, Lacking, Fs.Ptr;
    if k > 0 {
      NextChunk(off, k, m);
      MappedTogether(f0, f, g, i, off / BSIZE, EndBlock(off, k), (off + k) / BSIZE, EndBlock(off, k + m));
    }
  }

  lemma ReachedFrees(f0: Fs, f: Fs, i: nat, off: nat, k: nat)
    requires Reached(f0, f, i, off, k) && (k > 0 ==> off + k <= MAXFILE * BSIZE)
    ensures |Frees(f0)| >= Takes(f0, i, off, k)
  {
    hide Frees, Lacking, Fs.Ptr;
  }

  /** If a chunk finds too few free blocks, there were too few for the plan. */
  lemma ChunkSpace(f0: Fs, f: Fs, i: nat, off: nat, k: nat, m: nat, plan: nat)
    requires Reached(f0, f, i, off, k) && m > 0 && k + m <= plan && off + plan <= MAXFILE * BSIZE
    ensures |Frees(f)| < Takes(f, i, off + k, m) ==> |Frees(f0)| < Takes(f0, i, off, plan)
  {
    hide Frees, Lacking, Fs.Ptr;
    EndGrows(off, k + m, plan);
    EndFits(off, plan);
    LackingGrows(f0, i, off / BSIZE, EndBlock(off, k + m), EndBlock(off, plan));
    if k > 0 {
      NextChunk(off, k, m);
      LackingTogether(f0, f, i, off / BSIZE, EndBlock(off, k), (off + k) / BSIZE, EndBlock(off, k + m));
    }
  }

  /** f is f0 after the first k bytes of src were written to file i from off on. */
  ghost predicate Written(f0: Fs, f: Fs, i: nat, off: nat, src: seq<Byte>, k: nat) {
    && f0.Valid() && f.Valid() && i < |f0.inodes| == |f.inodes| && k <= |src|
    && (k == 0 || off <= |f0.Content(i)|)
    && f.Content(i) == (if k == 0 then f0.Content(i) else Splice(f0.Content(i), off, src[..k]))
    && forall j :: 0 <= j < |f.inodes| && j != i ==> f.Content(j) == f0.Content(j)
  }

  lemma WrittenNothing(f: Fs, i: nat, off: nat, src: seq<Byte>)
    requires f.Valid() && i < |f.inodes|
    ensures Written(f, f, i, off, src, 0)
  {
  }

  lemma WrittenMore(f0: Fs, f: Fs, g: Fs, i: nat, off: nat, src: seq<Byte>, k: nat, m: nat)
    requires Written(f0, f, i, off, src, k) && m > 0 && k + m <= |src| && off + k <= f.inodes[i].size
    requires g.Valid() && |g.inodes| == |f.inodes| && g.Content(i) == Splice(f.Content(i), off + k, src[k..k + m])
    requires forall j :: 0 <= j < |g.inodes| && j != i ==> g.Content(j) == f.Content(j)
    ensures off + k + m <= g.inodes[i].size <= MAXFILE * BSIZE < WORDMAX
    ensures Written(f0, g, i, off, src, k + m)
  {
    hide Fs.Owned, Fs.NoHoles, Fs.Content, Splice;
    SpliceTwice(f0.Content(i), off, src, k, m);
    SpliceLength(f.Content(i), off + k, src[k..k + m]);
  }

  lemma SpliceLength(c: seq<Byte>, off: nat, src: seq<Byte>)
    requires off <= |c|
    ensures |Splice(c, off, src)| >= off + |src|
  {
  }

  /** Writing two consecutive pieces one after the other writes their concatenation. */
  lemma SpliceTwice(c: seq<Byte>, off: nat, src: seq<Byte>, k: nat, m: nat)
    requires k + m <= |src|
    ensures k == 0 ==> src[..k + m] == src[k..k + m]
    ensures off <= |c| ==> |Splice(c, off, src[..k])| >= off + k
    ensures off <= |c| ==> Splice(Splice(c, off, src[..k]), off + k, src[k..k + m]) == Splice(c, off, src[..k + m])
  {
  }

  /** Some slot of inode i points to b. */
  ghost predicate OwnedBy(f: Fs, i: nat, b: nat)
    requires f.Shape() && i < |f.inodes|
  {
    b != 0 && exists k :: 0 <= k < NSLOTS && f.Ptr(i, k) == b
  }

  /** f is f0 with exactly the blocks in the done slots of inode i freed. */
  ghost predicate Truncating(f0: Fs, f: Fs, i: nat, done: set<nat>) {
    && f0.Valid() && f.Shape() && f.sb == f0.sb && f.inodes == f0.inodes && i < |f0.inodes|
    && (forall k :: k in done ==> k < NSLOTS)
    && (forall c :: f.sb.datastart <= c < f.sb.size ==> f.blocks[c] == f0.blocks[c])
    && (forall c :: 0 <= c < f.sb.size ==> (f.Used(c) <==> f0.Used(c) && !Freed(f0, i, done, c)))
  }

  ghost predicate Freed(f0: Fs, i: nat, done: set<nat>, c: nat)
    requires f0.Shape() && i < |f0.inodes| && forall k :: k in done ==> k < NSLOTS
  {
    c != 0 && exists k :: k in done && f0.Ptr(i, k) == c
  }

  lemma TruncateStart(f0: Fs, i: nat)
    requires f0.Valid() && i < |f0.inodes|
    ensures Truncating(f0, f0, i, {})
  {
  }

  /** The block in a slot not done yet is still marked used, and freeing it does that slot. */
  lemma TruncateStep(f0: Fs, f: Fs, i: nat, k: nat, done: set<nat>)
    requires Truncating(f0, f, i, done) && k < NSLOTS && k !in done
    ensures f0.Ptr(i, k) == 0 ==> Truncating(f0, f, i, done + {k})
    ensures f0.Ptr(i, k) != 0 ==> f0.Ptr(i, k) < f.sb.size && f.Used(f0.Ptr(i, k))
                                  && Truncating(f0, f.Free(f0.Ptr(i, k)), i, done + {k})
  {
    hide Fs.Ptr, Fs.Used;
    var b := f0.Ptr(i, k);
    assert f0.IsSlot(i, k);
    if b == 0 {
      assert forall c: nat :: Freed(f0, i, done + {k}, c) <==> Freed(f0, i, done, c);
    } else {
      assert forall l :: l in done ==> f0.IsSlot(i, l);
      FreeBits(f, b);
      assert forall c: nat :: Freed(f0, i, done + {k}, c) <==> Freed(f0, i, done, c) || c == b;
    }
  }

  lemma DirectSlot(f: Fs, i: nat, k: nat)
    requires f.Shape() && i < |f.inodes| && k <= NDIRECT
    ensures f.Ptr(i, k) == f.inodes[i].addrs[k]
    ensures k == NDIRECT && f.inodes[i].addrs[NDIRECT] == 0 ==> forall l :: NDIRECT < l < NSLOTS ==> f.Ptr(i, l) == 0
  {
  }

  /** The indirect block still reads as at the start. */
  lemma IndirectKept(f0: Fs, f: Fs, i: nat, done: set<nat>)
    requires Truncating(f0, f, i, done) && f0.inodes[i].addrs[NDIRECT] != 0
    ensures var d := f0.inodes[i].addrs[NDIRECT];
            && d < |f.blocks|
            && forall j :: 0 <= j < NINDIRECT ==> Word(f.blocks[d], j) == f0.Ptr(i, NDIRECT + 1 + j)
  {
    hide Word, Bit;
    IndirectOwned(f0, i);
  }

  /** f's blocks with inode i emptied. */
  function Emptied(f: Fs, i: nat): Fs
    requires i < |f.inodes|
  {
    Fs(f.sb, f.blocks, f.inodes[i := Inode(0, seq(NDIRECT + 1, _ => 0))])
  }

  lemma TruncatePtrs(f0: Fs, f: Fs, i: nat, done: set<nat>)
    requires Truncating(f0, f, i, done)
    ensures Emptied(f, i).Shape()
    ensures forall k :: 0 <= k < NSLOTS ==> Emptied(f, i).Ptr(i, k) == 0
    ensures forall j, k :: f0.IsSlot(j, k) && j != i ==> Emptied(f, i).Ptr(j, k) == f0.Ptr(j, k)
  {
    hide Word, Bit;
    var g := Emptied(f, i);
    forall j, k | f0.IsSlot(j, k) && j != i
      ensures g.Ptr(j, k) == f0.Ptr(j, k)
    {
      IndirectOwned(f0, j);
    }
  }

  lemma TruncateUsed(f0: Fs, f: Fs, i: nat, done: set<nat>, b: nat)
    requires Truncating(f0, f, i, done) && b < f.sb.size
    requires forall k :: 0 <= k < NSLOTS ==> k in done || f0.Ptr(i, k) == 0
    ensures Emptied(f, i).Used(b) <==> f0.Used(b) && !OwnedBy(f0, i, b)
  {
    hide Fs.Ptr, Bit;
  }

  lemma TruncateValid(f0: Fs, f: Fs, i: nat, done: set<nat>)
    requires Truncating(f0, f, i, done)
    requires forall k :: 0 <= k < NSLOTS ==> k in done || f0.Ptr(i, k) == 0
    ensures Emptied(f, i).Valid()
  {
    hide Fs.Ptr, Fs.Used;
    var g := Emptied(f, i);
    TruncatePtrs(f0, f, i, done);
    forall j, k | f0.IsSlot(j, k) && j != i && f0.Ptr(j, k) != 0
      ensures g.Used(f0.Ptr(j, k))
    {
      TruncateUsed(f0, f, i, done, f0.Ptr(j, k));
      assert forall l :: 0 <= l < NSLOTS ==> f0.IsSlot(i, l);
    }
    forall b | 0 <= b < f.sb.datastart
      ensures g.Used(b)
    {
      TruncateUsed(f0, f, i, done, b);
      assert forall l :: 0 <= l < NSLOTS ==> f0.IsSlot(i, l);
    }
    assert forall j, k :: g.IsSlot(j, k) ==> f0.IsSlot(j, k);
    assert g.Owned();
    forall j, bn | 0 <= j < |g.inodes| && 0 <= bn < MAXFILE && bn * BSIZE < g.inodes[j].size
      ensures g.Ptr(j, Slot(bn)) != 0
    {
      assert f0.IsSlot(j, Slot(bn));
    }
  }

  lemma TruncateDone(f0: Fs, f: Fs, i: nat, done: set<nat>)
    requires Truncating(f0, f, i, done)
    requires forall k :: 0 <= k < NSLOTS ==> k in done || f0.Ptr(i, k) == 0
    ensures var g := Emptied(f, i);
            && g.Valid()
            && (forall b :: 0 <= b < g.sb.size ==> (g.Used(b) <==> f0.Used(b) && !OwnedBy(f0, i, b)))
            && g.Content(i) == []
            && forall j :: 0 <= j < |g.inodes| && j != i ==> g.Content(j) == f0.Content(j)
  {
    hide Fs.Ptr, Fs.Used, Fs.Owned, Fs.NoHoles, OwnedBy, Fs.Content;
    var g := Emptied(f, i);
    TruncateValid(f0, f, i, done);
    TruncatePtrs(f0, f, i, done);
    forall b | 0 <= b < g.sb.size
      ensures g.Used(b) <==> f0.Used(b) && !OwnedBy(f0, i, b)
    {
      TruncateUsed(f0, f, i, done, b);
    }
    forall j | 0 <= j < |g.inodes| && j != i
      ensures g.Content(j) == f0.Content(j)
    {
      forall x | 0 <= x < f0.inodes[j].size
        ensures g.ByteAt(j, x) == f0.ByteAt(j, x)
      {
        TruncateByte(f0, f, i, done, j, x);
      }
    }
  }

  lemma TruncateByte(f0: Fs, f: Fs, i: nat, done: set<nat>, j: nat, x: nat)
    requires Truncating(f0, f, i, done) && j < |f0.inodes| && j != i && x < f0.inodes[j].size
    ensures Emptied(f, i).Shape() && Emptied(f, i).ByteAt(j, x) == f0.ByteAt(j, x)
  {
    hide Fs.Ptr, Fs.Used;
    TruncatePtrs(f0, f, i, done);
    assert f0.IsSlot(j, Slot(x / BSIZE));
  }

  lemma JoinSlices(c: seq<Byte>, lo: nat, mid: nat, hi: nat)
    requires lo <= mid <= hi <= |c|
    ensures c[lo..mid] + c[mid..hi] == c[lo..hi]
  {
  }

  /** What one round of readi copies is a piece of the file. */
  lemma ReadRange(f: Fs, i: nat, x: nat, n: nat)
    requires f.Valid() && i < |f.inodes| && n > 0 && x + n <= f.inodes[i].size
    ensures var bn, o := x / BSIZE, x % BSIZE;
            var m := Min(n, BSIZE - o);
            && bn < MAXFILE && f.Ptr(i, Slot(bn)) != 0 && f.Ptr(i, Slot(bn)) < |f.blocks|
            && f.blocks[f.Ptr(i, Slot(bn))][o..o + m] == f.Content(i)[x..x + m]
  {
    hide Fs.Ptr, Fs.Used;
    var bn, o := x / BSIZE, x % BSIZE;
    var m := Min(n, BSIZE - o);
    assert bn * BSIZE <= x;
    assert f.IsSlot(i, Slot(bn));
    forall y | x <= y < x + m
      ensures y / BSIZE == bn && y % BSIZE == y - x + o
    {
    }
  }

  /** The ranges writei refuses. */
  predicate BadRange(size: nat, off: nat, n: nat) {
    off > size || off + n > MAXFILE * BSIZE
  }

  /** was with src stored at off, grown if need be. */
  function Splice(was: seq<Byte>, off: nat, src: seq<Byte>): (r: seq<Byte>)
    requires off <= |was|
    ensures |r| == if off + |src| < |was| then |was| else off + |src|
    ensures forall x :: 0 <= x < |r| ==> r[x] == if off <= x < off + |src| then src[x - off] else was[x]
  {
    was[..off] + src + if off + |src| < |was| then was[off + |src|..] else []
  }

  /** f with inode i grown to at least size. */
  function Grown(f: Fs, i: nat, size: nat): Fs
    requires i < |f.inodes|
  {
    if size > f.inodes[i].size then Fs(f.sb, f.blocks, f.inodes[i := Inode(size, f.inodes[i].addrs)]) else f
  }

  lemma GrownKeeps(f: Fs, i: nat, size: nat)
    requires f.Shape() && i < |f.inodes| && size <= MAXFILE * BSIZE
    ensures var g := Grown(f, i, size);
            && g.Shape() && |g.inodes| == |f.inodes|
            && (forall j, k :: f.IsSlot(j, k) ==> g.Ptr(j, k) == f.Ptr(j, k))
            && (forall j, x :: 0 <= j < |f.inodes| && 0 <= x < MAXFILE * BSIZE ==> g.ByteAt(j, x) == f.ByteAt(j, x))
            && (forall b :: 0 <= b < f.sb.size ==> g.Used(b) == f.Used(b))
            && (f.Owned() ==> g.Owned())
  {
    hide Word, Bit;
    var g := Grown(f, i, size);
    assert g.Shape();
    assert forall j, k :: f.IsSlot(j, k) ==> g.Ptr(j, k) == f.Ptr(j, k);
  }

  /** Every file block below the new size is mapped. */
  lemma GrownNoHoles(f0: Fs, f: Fs, i: nat, off: nat, src: seq<Byte>, j: nat, bn: nat)
    requires Writing(f0, f, i, off, src, |src|) && off <= f0.inodes[i].size
    requires j < |f.inodes| && bn < MAXFILE
    requires var size := f0.inodes[j].size;
             bn * BSIZE < if j == i && |src| > 0 && off + |src| > size then off + |src| else size
    ensures f.Ptr(j, Slot(bn)) != 0
  {
    hide Fs.Ptr, Fs.Used, Fs.Owned, Fs.ByteAt;
    assert f0.IsSlot(j, Slot(bn));
    if bn * BSIZE >= f0.inodes[j].size {
      assert bn * BSIZE / BSIZE == bn;
      assert ByteWritten(f0, f, i, off, src, |src|, bn * BSIZE);
    }
  }

  lemma GrownValid(f0: Fs, f: Fs, i: nat, off: nat, src: seq<Byte>)
    requires Writing(f0, f, i, off, src, |src|) && off <= f0.inodes[i].size
    ensures Grown(f, i, if |src| == 0 then 0 else off + |src|).Valid()
  {
    hide Fs.Ptr, Fs.Used, Fs.Owned, ByteWritten;
    var size := if |src| == 0 then 0 else off + |src|;
    var g := Grown(f, i, size);
    GrownKeeps(f, i, size);
    forall j, bn | 0 <= j < |g.inodes| && 0 <= bn < MAXFILE && bn * BSIZE < g.inodes[j].size
      ensures g.Ptr(j, Slot(bn)) != 0
    {
      GrownNoHoles(f0, f, i, off, src, j, bn);
      assert f.IsSlot(j, Slot(bn));
    }
  }

  /** Byte x of file j, read back after the write. */
  lemma WrittenByte(f0: Fs, f: Fs, i: nat, off: nat, src: seq<Byte>, j: nat, x: nat)
    requires Writing(f0, f, i, off, src, |src|) && off <= f0.inodes[i].size
    requires j < |f.inodes|
    requires x < f0.inodes[j].size || (j == i && x < off + |src|)
    ensures x < MAXFILE * BSIZE
    ensures f.ByteAt(j, x) == if j == i && off <= x < off + |src| then src[x - off] else f0.ByteAt(j, x)
  {
    hide Fs.Used, Fs.Owned, Word;
    assert ByteWritten(f0, f, i, off, src, |src|, x) || j != i;
    var bn := x / BSIZE;
    assert bn * BSIZE <= x;
    if x < f0.inodes[j].size {
      assert f0.Ptr(j, Slot(bn)) != 0;
      assert f0.IsSlot(j, Slot(bn));
    }
  }

  /** After the loop and the size update: no holes, file i spliced, other files untouched. */
  lemma WritingDone(f0: Fs, f: Fs, i: nat, off: nat, src: seq<Byte>)
    requires Writing(f0, f, i, off, src, |src|) && off <= f0.inodes[i].size
    ensures var g := Grown(f, i, if |src| == 0 then 0 else off + |src|);
            && g.Valid() && |g.inodes| == |f0.inodes|
            && g.Content(i) == Splice(f0.Content(i), off, src)
            && forall j :: 0 <= j < |f0.inodes| && j != i ==> g.Content(j) == f0.Content(j)
  {
    hide Fs.Ptr, Fs.Used, Fs.Owned, Fs.NoHoles, Fs.ByteAt, ByteWritten, Fs.Content;
    var size := if |src| == 0 then 0 else off + |src|;
    var g := Grown(f, i, size);
    GrownKeeps(f, i, size);
    GrownValid(f0, f, i, off, src);
    forall j | 0 <= j < |f0.inodes| && j != i
      ensures g.Content(j) == f0.Content(j)
    {
      forall x | 0 <= x < f0.inodes[j].size
        ensures g.ByteAt(j, x) == f0.ByteAt(j, x)
      {
        WrittenByte(f0, f, i, off, src, j, x);
      }
    }
    var c := Splice(f0.Content(i), off, src);
    forall x | 0 <= x < |c|
      ensures g.Content(i)[x] == c[x]
    {
      WrittenByte(f0, f, i, off, src, i, x);
    }
  }

  lemma GrownSpace(f0: Fs, f: Fs, i: nat, off: nat, src: seq<Byte>)
    requires Writing(f0, f, i, off, src, |src|) && i < |f.inodes|
    ensures SameSpace(f, Grown(f, i, if |src| == 0 then 0 else off + |src|), i)
  {
    var size := if |src| == 0 then 0 else off + |src|;
    GrownKeeps(f, i, size);
    hide Fs.Ptr, Fs.Used, Fs.Owned, Fs.NoHoles, Fs.ByteAt, ByteWritten;
    SameSpaceIf(f, Grown(f, i, size), i);
  }

  lemma StoreSpace(f: Fs, g: Fs, i: nat)
    requires SameSpace(f, g, i) && g.Valid() && Storable(g.inodes[i]) && g.sb.InodeBlock(i) < |g.blocks|
    ensures SameSpace(f, g.Store(i), i)
  {
    StoreEffect(g, i);
    hide Fs.Ptr, Fs.Used, Fs.Owned, Fs.NoHoles, Frees;
    SameSpaceIf(g, g.Store(i), i);
    SameSpaceTransitive(f, g, g.Store(i), i);
  }

  /** writei leaves the disk's copies of other inodes alone, and of its own until it calls iupdate. */
  lemma WritingStored(f0: Fs, f: Fs, i: nat, off: nat, src: seq<Byte>)
    requires Writing(f0, f, i, off, src, |src|) && SameFront(f0, f)
    ensures i < |f.inodes| == |f0.inodes|
    ensures var g := Grown(f, i, if |src| == 0 then 0 else off + |src|);
            forall j :: 0 <= j < |f0.inodes| && j != i ==> (g.Stored(j) <==> f0.Stored(j))
    ensures |src| == 0 ==> f == Grown(f, i, 0)
  {
    hide Fs.Owned, Fs.NoHoles, Fs.Stored, SameFront, ByteWritten;
    var g := Grown(f, i, if |src| == 0 then 0 else off + |src|);
    FrontOf(f, g);
    SameFrontTransitive(f0, f, g);
    forall j: nat | j < |f0.inodes| && j != i
      ensures g.Stored(j) <==> f0.Stored(j)
    {
      OtherInode(f0, f, i, j);
      StillStored(f0, g, j);
    }
  }

  lemma FrontOf(f: Fs, g: Fs)
    requires g.blocks == f.blocks && g.sb == f.sb
    ensures SameFront(f, g)
  {
  }

  lemma OtherInode(f0: Fs, f: Fs, i: nat, j: nat)
    requires OthersKept(f0, f, i) && j < |f0.inodes| && j != i
    ensures f.inodes[j] == f0.inodes[j]
  {
    hide Fs.Used, Fs.Owned, Fs.NoHoles, Word;
    forall k | 0 <= k <= NDIRECT
      ensures f.inodes[j].addrs[k] == f0.inodes[j].addrs[k]
    {
      assert f0.IsSlot(j, k) && f.Ptr(j, k) == f0.Ptr(j, k);
    }
    assert f.inodes[j].addrs == f0.inodes[j].addrs;
  }

  lemma TruncateStored(f0: Fs, f: Fs, i: nat)
    requires f0.Shape() && f.Shape() && i < |f0.inodes| && SameFront(f0, f)
    requires |f.inodes| == |f0.inodes| && forall j :: 0 <= j < |f0.inodes| && j != i ==> f.inodes[j] == f0.inodes[j]
    ensures forall j :: 0 <= j < |f0.inodes| && j != i ==> (f.Stored(j) <==> f0.Stored(j))
  {
    hide Fs.Stored, SameFront;
    forall j: nat | j < |f0.inodes| && j != i
      ensures f.Stored(j) <==> f0.Stored(j)
    {
      StillStored(f0, f, j);
    }
  }

  lemma Join(a: set<nat>, b: set<nat>, x: nat)
    ensures a + b + {x} == a + (b + {x}) && |a + (b + {x})| <= |a| + |b + {x}|
  {
    assert |a + (b + {x})| + |a * (b + {x})| == |a| + |b + {x}|;
  }

  lemma WritingNothing(f0: Fs, i: nat, off: nat, src: seq<Byte>)
    requires f0.Valid() && i < |f0.inodes| && off + |src| <= MAXFILE * BSIZE
    ensures Writing(f0, f0, i, off, src, 0)
  {
  }
}
