/** A chunk of filewrite that logs as many blocks as begin_op reserves. */
module FsTight {
  import opened Params
  import opened FsBytes
  import opened FsState
  import opened FsSpace
  import opened FsLogs
  import opened FileSystem

  /** A bitmap block with the last bit clear and all others set. */
  function LastFree(): Block { seq(BSIZE, x => if x == BSIZE - 1 then 127 else 255) }

  lemma Bits(k: nat)
    requires k < 8
    ensures ByteBit(255, k) && (ByteBit(127, k) <==> k != 7)
  {
    assert k == 0 || k == 1 || k == 2 || k == 3 || k == 4 || k == 5 || k == 6 || k == 7;
  }

  lemma LastFreeBit(k: nat)
    requires k < BPB
    ensures Bit(LastFree(), k) <==> k != BPB - 1
  {
    Bits(k % 8);
    assert LastFree()[k / 8] == if k / 8 == BSIZE - 1 then 127 else 255;
  }

  const SIZE := 11 * BSIZE + BSIZE / 2   // eleven blocks and a half

  function BlockAt(b: int): Block { if 3 <= b < 7 then LastFree() else Zero() }

  /** Four bitmap blocks, 3 .. 6, with one free block each, and one file, in blocks 8 .. 19. */
  function Start(): Fs {
    Fs(Super(4 * BPB, 1, 3, 8),
       seq(4 * BPB, b => BlockAt(b)),
       [Inode(SIZE, [8, 9, 10, 11, 12, 13, 14, 15, 16, 17, 18, 19, 0])])
  }

  lemma StartUsed()
    ensures Start().Shape() && forall b :: 0 <= b < 4 * BPB ==> (Start().Used(b) <==> b % BPB != BPB - 1)
  {
    forall b | 0 <= b < 4 * BPB
      ensures Start().Used(b) <==> b % BPB != BPB - 1
    {
      LastFreeBit(b % BPB);
    }
  }

  lemma StartPtrs()
    ensures forall k :: 0 <= k < NSLOTS ==> Start().Ptr(0, k) == if k < NDIRECT then 8 + k else 0
  {
  }

  lemma StartValid()
    ensures Start().Valid()
    ensures Frees(Start()) == {BPB - 1, 2 * BPB - 1, 3 * BPB - 1, 4 * BPB - 1}
  {
    StartUsed();
    StartPtrs();
    hide Fs.Used, Fs.Ptr, LastFree;
    assert forall b: nat :: b < 4 * BPB && b % BPB == BPB - 1 ==> b / BPB * BPB == b - (BPB - 1);
  }

  lemma FileBlock(g: Fs, bn: nat)
    requires Start().Shape() && MappedTo(Start(), g, 0, 11, 15) && 11 <= bn < 15
    ensures if bn == 11 then g.Ptr(0, Slot(bn)) == 19 else g.Ptr(0, Slot(bn)) in Frees(Start())
    ensures g.Ptr(0, NDIRECT) in Frees(Start())
  {
    StartPtrs();
    hide Fs.Ptr, Frees;
    assert Filled(Start(), Start().Ptr(0, Slot(bn)), g.Ptr(0, Slot(bn)));
  }

  lemma PtrsDiffer(g: Fs, k: nat, l: nat)
    requires g.Valid() && |g.inodes| == 1 && k < l < NSLOTS && g.Ptr(0, k) != 0
    ensures g.Ptr(0, k) != g.Ptr(0, l)
  {
    assert g.IsSlot(0, k) && g.IsSlot(0, l);
    hide Fs.Ptr;
  }

  /** The write takes all four free blocks. */
  lemma Taken(g: Fs)
    requires g.Valid() && |g.inodes| == 1 && Start().Shape() && MappedTo(Start(), g, 0, 11, 15)
    ensures g.Ptr(0, Slot(11)) == 19
    ensures var s := [g.Ptr(0, NDIRECT), g.Ptr(0, Slot(12)), g.Ptr(0, Slot(13)), g.Ptr(0, Slot(14))];
            && (forall x :: 0 <= x < 4 ==> s[x] in Frees(Start()))
            && (forall x, y :: 0 <= x < y < 4 ==> s[x] != s[y])
  {
    StartValid();
    hide Fs.Ptr, Fs.Used, Frees, Start, MappedTo, Fs.Owned, Fs.NoHoles;
    FileBlock(g, 11);
    FileBlock(g, 12);
    FileBlock(g, 13);
    FileBlock(g, 14);
    PtrsDiffer(g, 12, 13);
    PtrsDiffer(g, 12, 14);
    PtrsDiffer(g, 12, 15);
    PtrsDiffer(g, 13, 14);
    PtrsDiffer(g, 13, 15);
    PtrsDiffer(g, 14, 15);
  }

  lemma OneLogged(g: Fs, bn: nat)
    requires g.Shape() && |g.inodes| == 1 && Start().Shape() && 11 <= bn < MAXFILE
    ensures var p, d := g.Ptr(0, Slot(bn)), g.Ptr(0, NDIRECT);
            Logs(Start(), g, 0, 11, bn + 1) ==
            Logs(Start(), g, 0, 11, bn) + if bn == 11 then {p} else {3 + p / BPB, p, d, 3 + d / BPB}
  {
    StartPtrs();
    hide Fs.Ptr;
  }

  lemma NothingLogged(g: Fs)
    requires g.Shape() && |g.inodes| == 1 && Start().Shape()
    ensures Logs(Start(), g, 0, 11, 11) == {}
  {
  }

  /** The bitmap block of b. */
  function MapOf(b: nat): nat { 3 + b / BPB }

  function Fresh(b: nat, d: nat): set<nat> { {MapOf(b), b, d, MapOf(d)} }

  lemma AllLogged(g: Fs)
    requires g.Valid() && |g.inodes| == 1 && Start().Shape() && MappedTo(Start(), g, 0, 11, 15)
    ensures var d, p, q, r := g.Ptr(0, NDIRECT), g.Ptr(0, Slot(12)), g.Ptr(0, Slot(13)), g.Ptr(0, Slot(14));
            Logs(Start(), g, 0, 11, 15) == {g.Ptr(0, Slot(11))} + Fresh(p, d) + Fresh(q, d) + Fresh(r, d)
  {
    hide Fs.Ptr, Frees, Fs.Used, MappedTo, Logs, Fs.Owned, Fs.NoHoles;
    NothingLogged(g);
    OneLogged(g, 11);
    OneLogged(g, 12);
    OneLogged(g, 13);
    OneLogged(g, 14);
  }

  lemma Four(a: nat, b: nat, c: nat, d: nat)
    requires a != b && a != c && a != d && b != c && b != d && c != d
    ensures |{a, b, c, d}| == 4
  {
    assert {a, b, c, d} == {a, b, c} + {d} && {a, b, c} == {a, b} + {c} && {a, b} == {a} + {b};
  }

  lemma Ten(s: set<nat>, t: set<nat>)
    requires |s| == |t| == 4 && forall x :: (x in s ==> x >= 20) && (x in t ==> 2 <= x < 19)
    ensures |s + t + {1, 19}| == MAXOPBLOCKS
  {
    assert s !! t && s + t !! {1, 19};
    assert |s + t| == 8;
  }

  lemma Place(b: nat)
    requires b in {BPB - 1, 2 * BPB - 1, 3 * BPB - 1, 4 * BPB - 1}
    ensures 3 <= MapOf(b) < 7 && b == (MapOf(b) - 2) * BPB - 1
  {
  }

  lemma Gathered(p: nat, q: nat, r: nat, d: nat, mp: nat, mq: nat, mr: nat, md: nat)
    ensures {19} + {mp, p, d, md} + {mq, q, d, md} + {mr, r, d, md} + {1} == {p, q, r, d} + {mp, mq, mr, md} + {1, 19}
  {
  }

  /** Four blocks of four bitmap blocks. */
  lemma FourMaps(p: nat, q: nat, r: nat, d: nat)
    requires {p, q, r, d} <= {BPB - 1, 2 * BPB - 1, 3 * BPB - 1, 4 * BPB - 1}
    requires p != q && p != r && p != d && q != r && q != d && r != d
    ensures |{19} + Fresh(p, d) + Fresh(q, d) + Fresh(r, d) + {1}| == MAXOPBLOCKS
  {
    hide MapOf;
    Place(p);
    Place(q);
    Place(r);
    Place(d);
    var mp, mq, mr, md := MapOf(p), MapOf(q), MapOf(r), MapOf(d);
    Four(p, q, r, d);
    Four(mp, mq, mr, md);
    Ten({p, q, r, d}, {mp, mq, mr, md});
    Gathered(p, q, r, d, mp, mq, mr, md);
  }

  /** What such a write logs. */
  lemma LogsTen(g: Fs)
    requires g.Valid() && |g.inodes| == 1 && Start().Shape() && MappedTo(Start(), g, 0, 11, 15)
    ensures |Logs(Start(), g, 0, 11, 15) + {1}| == MAXOPBLOCKS
  {
    hide Fs.Ptr, Frees, Fs.Used, MappedTo, Logs, Fs.Owned, Fs.NoHoles;
    StartValid();
    AllLogged(g);
    Taken(g);
    var s := [g.Ptr(0, NDIRECT), g.Ptr(0, Slot(12)), g.Ptr(0, Slot(13)), g.Ptr(0, Slot(14))];
    assert s[0] in Frees(Start()) && s[1] in Frees(Start()) && s[2] in Frees(Start()) && s[3] in Frees(Start());
    hide Start;
    FourMaps(s[1], s[2], s[3], s[0]);
  }

  lemma StartTakes()
    ensures Start().Shape() && |Frees(Start())| == 4 == Takes(Start(), 0, SIZE, CHUNK)
    ensures SIZE / BSIZE == 11 && EndBlock(SIZE, CHUNK) == 15 && !BadRange(SIZE, SIZE, CHUNK)
  {
    StartValid();
    StartPtrs();
    hide Fs.Ptr, Frees, Fs.Used;
    var f := Start();
    Four(BPB - 1, 2 * BPB - 1, 3 * BPB - 1, 4 * BPB - 1);
    assert f.Ptr(0, NDIRECT) == 0 && f.Ptr(0, Slot(11)) == 19 && f.Ptr(0, Slot(12)) == 0;
    assert f.Ptr(0, Slot(13)) == 0 && f.Ptr(0, Slot(14)) == 0;
    assert Lacking(f, 0, 11, 11) == 0 && Lacking(f, 0, 11, 12) == 0;
    assert Lacking(f, 0, 11, 13) == 2 && Lacking(f, 0, 11, 14) == 3;
    assert Lacking(f, 0, 11, 15) == 4;
  }

  /**
   writei of a chunk from the middle of block 11 on, with four blocks free in four bitmap blocks:
   four data blocks, the indirect block, the four bitmap blocks and the inode block.
   */
  method FullTransaction(src: seq<Byte>) returns (v: Volume, ok: bool, r: int)
    requires |src| == CHUNK
    ensures fresh(v) && ok && r == CHUNK && Start().Valid() && v.S().Valid()
    ensures |v.inodes| == 1 && v.S().Content(0) == Splice(Start().Content(0), SIZE, src)
    ensures |v.logged| == MAXOPBLOCKS
  {
    hide Fs.Owned, Fs.NoHoles, Fs.Content, Splice, Frees, MappedTo, Takes, Logs, Fs.Ptr, Fs.Used, Fs.Stored;
    StartValid();
    StartTakes();
    v := new Volume(Start());
    ok, r := v.Writei(0, SIZE, src);
    LogsTen(v.S());
  }
}
