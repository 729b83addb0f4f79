/** The free blocks of a volume, and how many of them a write takes. */
module FsSpace {
  import opened FsBytes
  import opened FsState

  /** The blocks whose bits are clear. */
  ghost function Frees(f: Fs): set<nat>
    requires f.Shape()
  {
    set b: nat | b < f.sb.size && !f.Used(b)
  }

  lemma NoFrees(f: Fs)
    requires f.Shape()
    ensures Frees(f) == {} <==> forall c :: 0 <= c < f.sb.size ==> f.Used(c)
  {
    assert forall c :: 0 <= c < f.sb.size && !f.Used(c) ==> c in Frees(f);
  }

  lemma FreeIs(f: Fs, b: nat)
    requires f.Shape() && b < f.sb.size
    ensures b in Frees(f) <==> !f.Used(b)
  {
  }

  lemma OneTaken(f: Fs, g: Fs, b: nat)
    requires f.Shape() && g.Shape() && f.sb == g.sb && b in Frees(f)
    requires forall c :: 0 <= c < f.sb.size ==> g.Used(c) == (f.Used(c) || c == b)
    ensures Frees(g) == Frees(f) - {b} && |Frees(g)| == |Frees(f)| - 1
  {
    hide Fs.Used;
  }

  lemma SameFrees(f: Fs, g: Fs)
    requires SameUsed(f, g)
    ensures Frees(g) == Frees(f)
  {
    hide Fs.Used;
  }

  /** How many blocks bmap allocates for file block bn. */
  function Lacks(f: Fs, i: nat, bn: nat): nat
    requires i < |f.inodes| && |f.inodes[i].addrs| == NDIRECT + 1 && bn < MAXFILE
  {
    (if f.Ptr(i, Slot(bn)) == 0 then 1 else 0)
    + if bn >= NDIRECT && f.Ptr(i, NDIRECT) == 0 then 1 else 0
  }

  /** How many blocks are missing to map file blocks lo .. hi - 1: data blocks, and the indirect block once. */
  function Lacking(f: Fs, i: nat, lo: nat, hi: nat): nat
    requires i < |f.inodes| && |f.inodes[i].addrs| == NDIRECT + 1 && lo <= hi <= MAXFILE
  {
    if lo == hi then 0
    else
      var bn := hi - 1;
      Lacking(f, i, lo, bn)
      + (if f.Ptr(i, Slot(bn)) == 0 then 1 else 0)
      + if bn >= NDIRECT && f.Ptr(i, NDIRECT) == 0 && (bn == NDIRECT || bn == lo) then 1 else 0
  }

  /** The data blocks missing in the range. */
  function Missing(f: Fs, i: nat, lo: nat, hi: nat): set<nat>
    requires i < |f.inodes| && |f.inodes[i].addrs| == NDIRECT + 1 && lo <= hi <= MAXFILE
  {
    set bn | lo <= bn < hi && f.Ptr(i, Slot(bn)) == 0
  }

  lemma {:induction false} LackingIs(f: Fs, i: nat, lo: nat, hi: nat)
    requires i < |f.inodes| && |f.inodes[i].addrs| == NDIRECT + 1 && lo <= hi <= MAXFILE
    ensures Lacking(f, i, lo, hi) ==
            |Missing(f, i, lo, hi)| + if lo < hi && hi > NDIRECT && f.Ptr(i, NDIRECT) == 0 then 1 else 0
  {
    hide Fs.Ptr;
    if lo == hi {
      assert Missing(f, i, lo, hi) == {};
    } else {
      var bn := hi - 1;
      LackingIs(f, i, lo, bn);
      if f.Ptr(i, Slot(bn)) == 0 {
        assert Missing(f, i, lo, hi) == Missing(f, i, lo, bn) + {bn};
      } else {
        assert Missing(f, i, lo, hi) == Missing(f, i, lo, bn);
      }
    }
  }

  lemma {:induction false} LackingGrows(f: Fs, i: nat, lo: nat, mid: nat, hi: nat)
    requires i < |f.inodes| && |f.inodes[i].addrs| == NDIRECT + 1 && lo <= mid <= hi <= MAXFILE
    ensures Lacking(f, i, lo, mid) <= Lacking(f, i, lo, hi)
  {
    if mid < hi {
      LackingGrows(f, i, lo, mid, hi - 1);
    }
  }

  /** A pointer that was empty is now to a block that was free; another is as it was. */
  ghost predicate Filled(f: Fs, was: nat, now: nat)
    requires f.Shape()
  {
    now != 0 && if was == 0 then now in Frees(f) else now == was
  }

  /** f is f0 after file blocks lo .. cur - 1 of inode i were mapped. */
  ghost predicate MappedTo(f0: Fs, f: Fs, i: nat, lo: nat, cur: nat) {
    && f0.Shape() && f.Shape() && i < |f0.inodes| && i < |f.inodes| && lo <= cur <= MAXFILE
    && |Frees(f)| + Lacking(f0, i, lo, cur) == |Frees(f0)| && Frees(f) <= Frees(f0)
    && (forall bn {:trigger Slot(bn)} :: lo <= bn < cur ==> Filled(f0, f0.Ptr(i, Slot(bn)), f.Ptr(i, Slot(bn))))
    && (forall bn {:trigger Slot(bn)} :: 0 <= bn < MAXFILE && !(lo <= bn < cur) ==>
          f.Ptr(i, Slot(bn)) == f0.Ptr(i, Slot(bn)))
    && if cur <= NDIRECT || cur == lo then f.Ptr(i, NDIRECT) == f0.Ptr(i, NDIRECT)
       else Filled(f0, f0.Ptr(i, NDIRECT), f.Ptr(i, NDIRECT))
  }

  /** g is f after bmap mapped file block bn of inode i. */
  ghost predicate OneMapped(f: Fs, g: Fs, i: nat, bn: nat) {
    && f.Shape() && g.Shape() && i < |f.inodes| && i < |g.inodes| && bn < MAXFILE
    && |Frees(g)| + Lacks(f, i, bn) == |Frees(f)| && Frees(g) <= Frees(f)
    && Filled(f, f.Ptr(i, Slot(bn)), g.Ptr(i, Slot(bn)))
    && (forall k :: 0 <= k < NSLOTS && k != Slot(bn) && k != NDIRECT ==> g.Ptr(i, k) == f.Ptr(i, k))
    && if bn < NDIRECT then g.Ptr(i, NDIRECT) == f.Ptr(i, NDIRECT)
       else Filled(f, f.Ptr(i, NDIRECT), g.Ptr(i, NDIRECT))
  }

  lemma AlreadyMapped(f: Fs, i: nat, bn: nat)
    requires f.Shape() && i < |f.inodes| && bn < MAXFILE && f.Ptr(i, Slot(bn)) != 0
    requires bn >= NDIRECT ==> f.Ptr(i, NDIRECT) != 0
    ensures Lacks(f, i, bn) == 0 && OneMapped(f, f, i, bn)
  {
  }

  /** One block taken for file block bn, with the indirect block there if it is needed. */
  lemma SlotMapped(f: Fs, g: Fs, i: nat, bn: nat, b: nat)
    requires PtrsPlus(f, g, i, Slot(bn), b) && i < |f.inodes| && bn < MAXFILE && f.Ptr(i, Slot(bn)) == 0 && b > 0
    requires bn >= NDIRECT ==> f.Ptr(i, NDIRECT) != 0
    requires b in Frees(f) && Frees(g) == Frees(f) - {b}
    ensures Lacks(f, i, bn) == 1 && OneMapped(f, g, i, bn)
  {
    hide Frees, Fs.Ptr;
    assert forall k :: 0 <= k < NSLOTS ==> f.IsSlot(i, k);
  }

  lemma SlotLacks(f: Fs, i: nat, bn: nat)
    requires f.Shape() && i < |f.inodes| && bn < MAXFILE && f.Ptr(i, Slot(bn)) == 0
    requires bn >= NDIRECT ==> f.Ptr(i, NDIRECT) != 0
    ensures Lacks(f, i, bn) == 1 && (Frees(f) != {} <==> |Frees(f)| >= 1)
  {
  }

  lemma IndirectLacks(f: Fs, i: nat, bn: nat)
    requires f.Shape() && i < |f.inodes| && NDIRECT <= bn < MAXFILE && f.Ptr(i, NDIRECT) == 0
    ensures Lacks(f, i, bn) == 2 && f.Ptr(i, Slot(bn)) == 0 && (Frees(f) != {} <==> |Frees(f)| >= 1)
  {
  }

  /** The indirect block taken first, which leaves file block bn unmapped. */
  lemma IndirectTaken(f: Fs, g: Fs, i: nat, bn: nat, d: nat)
    requires PtrsPlus(f, g, i, NDIRECT, d) && i < |f.inodes| && NDIRECT <= bn < MAXFILE && f.Ptr(i, NDIRECT) == 0
    requires d > 0
    requires d in Frees(f) && Frees(g) == Frees(f) - {d}
    ensures Lacks(f, i, bn) == 2 && g.Ptr(i, Slot(bn)) == 0 && g.Ptr(i, NDIRECT) == d
    ensures |Frees(g)| + 1 == |Frees(f)|
  {
    hide Frees;
    assert forall k :: 0 <= k < NSLOTS ==> f.IsSlot(i, k);
  }

  lemma BothMapped(f: Fs, g: Fs, h: Fs, i: nat, bn: nat, d: nat)
    requires PtrsPlus(f, g, i, NDIRECT, d) && i < |f.inodes| && NDIRECT <= bn < MAXFILE && f.Ptr(i, NDIRECT) == 0
    requires d in Frees(f) && Frees(g) == Frees(f) - {d} && d > 0
    requires Lacks(f, i, bn) == 2 && |Frees(g)| + 1 == |Frees(f)| && Lacks(g, i, bn) == 1 && OneMapped(g, h, i, bn)
    ensures OneMapped(f, h, i, bn)
  {
    hide Frees, Fs.Ptr;
    assert forall k :: 0 <= k < NSLOTS ==> f.IsSlot(i, k);
  }

  lemma MappedStart(f: Fs, i: nat, lo: nat)
    requires f.Shape() && i < |f.inodes| && lo <= MAXFILE
    ensures MappedTo(f, f, i, lo, lo)
  {
  }

  lemma MappedStep(f0: Fs, f: Fs, g: Fs, i: nat, lo: nat, cur: nat)
    requires MappedTo(f0, f, i, lo, cur) && OneMapped(f, g, i, cur)
    ensures MappedTo(f0, g, i, lo, cur + 1)
  {
    hide Fs.Ptr, Frees;
  }

  /** What bmap takes next is what the range lacks next. */
  lemma LacksNext(f0: Fs, f: Fs, i: nat, lo: nat, cur: nat)
    requires MappedTo(f0, f, i, lo, cur) && cur < MAXFILE
    ensures Lacking(f0, i, lo, cur + 1) == Lacking(f0, i, lo, cur) + Lacks(f, i, cur)
  {
    hide Fs.Ptr, Frees;
  }

  /** The file block after the last of bytes off .. off + n - 1; that of off itself for none. */
  function EndBlock(off: nat, n: nat): nat { if n == 0 then off / BSIZE else (off + n - 1) / BSIZE + 1 }

  /** How many blocks a write of n bytes at off takes. */
  function Takes(f: Fs, i: nat, off: nat, n: nat): nat
    requires i < |f.inodes| && |f.inodes[i].addrs| == NDIRECT + 1 && (n > 0 ==> off + n <= MAXFILE * BSIZE)
  {
    if n == 0 then 0 else Lacking(f, i, off / BSIZE, EndBlock(off, n))
  }

  /** Further blocks mapped after the first ones were, from the last of these or the next one on. */
  lemma {:induction false} LackingTogether(f0: Fs, f: Fs, i: nat, lo: nat, mid: nat, lo': nat, hi: nat)
    requires MappedTo(f0, f, i, lo, mid) && lo <= lo' <= mid <= lo' + 1 && lo' <= hi <= MAXFILE && mid <= hi
    requires lo < mid
    ensures Lacking(f0, i, lo, hi) == Lacking(f0, i, lo, mid) + Lacking(f, i, lo', hi)
    decreases hi
  {
    hide Fs.Ptr, Frees;
    if hi == mid {
      assert Lacking(f, i, lo', lo') == 0;
    } else {
      LackingTogether(f0, f, i, lo, mid, lo', hi - 1);
    }
  }

  lemma MappedTogether(f0: Fs, f: Fs, g: Fs, i: nat, lo: nat, mid: nat, lo': nat, hi: nat)
    requires MappedTo(f0, f, i, lo, mid) && MappedTo(f, g, i, lo', hi)
    requires lo <= lo' <= mid <= lo' + 1 && lo < mid <= hi
    ensures MappedTo(f0, g, i, lo, hi)
  {
    LackingTogether(f0, f, i, lo, mid, lo', hi);
    hide Fs.Ptr, Frees, Lacking;
  }

  lemma MappedFrees(f0: Fs, f: Fs, i: nat, lo: nat, cur: nat)
    requires MappedTo(f0, f, i, lo, cur)
    ensures |Frees(f)| + Lacking(f0, i, lo, cur) == |Frees(f0)|
  {
  }

  /** Writing into the block just mapped keeps the account. */
  lemma PutMapped(f: Fs, g: Fs, h: Fs, i: nat, bn: nat)
    requires OneMapped(f, g, i, bn) && SamePtrs(g, h) && SameUsed(g, h)
    ensures OneMapped(f, h, i, bn)
  {
    SameFrees(g, h);
    hide Frees, Fs.Ptr, Fs.Used;
    assert forall k :: 0 <= k < NSLOTS ==> g.IsSlot(i, k);
  }

  /** Neither the free blocks nor the pointers of inode i differ. */
  ghost predicate SameSpace(f: Fs, g: Fs, i: nat) {
    && f.Shape() && g.Shape() && i < |f.inodes| && i < |g.inodes| && Frees(g) == Frees(f)
    && forall k :: 0 <= k < NSLOTS ==> g.Ptr(i, k) == f.Ptr(i, k)
  }

  lemma SameSpaceIf(f: Fs, g: Fs, i: nat)
    requires f.Shape() && g.Shape() && f.sb == g.sb && i < |f.inodes| == |g.inodes|
    requires forall j, k :: f.IsSlot(j, k) ==> g.Ptr(j, k) == f.Ptr(j, k)
    requires forall b :: 0 <= b < f.sb.size ==> g.Used(b) == f.Used(b)
    ensures SameSpace(f, g, i)
  {
    SameFrees(f, g);
    hide Frees, Fs.Ptr, Fs.Used;
    assert forall k :: 0 <= k < NSLOTS ==> f.IsSlot(i, k);
  }

  lemma SameSpaceTransitive(f: Fs, g: Fs, h: Fs, i: nat)
    requires SameSpace(f, g, i) && SameSpace(g, h, i)
    ensures SameSpace(f, h, i)
  {
    hide Frees, Fs.Ptr;
  }

  lemma MappedSame(f0: Fs, f: Fs, g: Fs, i: nat, lo: nat, cur: nat)
    requires MappedTo(f0, f, i, lo, cur) && SameSpace(f, g, i)
    ensures MappedTo(f0, g, i, lo, cur)
  {
    hide Frees, Fs.Ptr, Lacking;
  }

  // ----- rounds of writei's loop

  /** After tot of n bytes from off on, the loop is at file block cur. */
  predicate AtBlock(off: nat, tot: nat, n: nat, cur: nat) {
    cur == EndBlock(off, tot) && (tot < n ==> (off + tot) / BSIZE == cur && (tot > 0 ==> (off + tot) % BSIZE == 0))
  }

  lemma RangeFits(off: nat, tot: nat, n: nat, cur: nat)
    requires AtBlock(off, tot, n, cur) && tot < n && off + n <= MAXFILE * BSIZE
    ensures off / BSIZE <= cur < EndBlock(off, n) <= MAXFILE
  {
  }

  lemma BlockDone(off: nat, tot: nat, m: nat, n: nat, cur: nat)
    requires AtBlock(off, tot, n, cur) && tot < n
    requires m == if n - tot < BSIZE - (off + tot) % BSIZE then n - tot else BSIZE - (off + tot) % BSIZE
    ensures AtBlock(off, tot + m, n, cur + 1)
  {
    var q, r := (off + tot) / BSIZE, (off + tot) % BSIZE;
    assert off + tot == q * BSIZE + r;
    assert off + (tot + m) - 1 == q * BSIZE + (r + m - 1);
  }

  // ----- chunks of filewrite

  /** The next bytes begin in the last block mapped or the one after it. */
  lemma NextChunk(off: nat, k: nat, m: nat)
    requires k > 0 && m > 0
    ensures var lo', mid := (off + k) / BSIZE, EndBlock(off, k);
            off / BSIZE <= lo' <= mid <= lo' + 1 && off / BSIZE < mid
    ensures EndBlock(off, k + m) == EndBlock(off + k, m) >= EndBlock(off, k)
  {
  }

  lemma EndGrows(off: nat, k: nat, n: nat)
    requires 0 < k <= n
    ensures off / BSIZE < EndBlock(off, k) <= EndBlock(off, n)
  {
  }

  lemma EndFits(off: nat, n: nat)
    requires n > 0 && off + n <= MAXFILE * BSIZE
    ensures off / BSIZE < EndBlock(off, n) <= MAXFILE
  {
  }
}
