/** Which blocks a write passes to log_write, and how many. */
module FsLogs {
  import opened Params
  import opened Sequences
  import opened FsBytes
  import opened FsState
  import opened FsSpace

  const CHUNK := (MAXOPBLOCKS - 1 - 1 - 2) / 2 * BSIZE   // filewrite's bytes per transaction

  /** What bmap passes to log_write when it returns the block of file block bn: nothing if it was mapped already. */
  ghost function BmapLogs(f: Fs, g: Fs, i: nat, bn: nat): set<nat>
    requires f.Shape() && g.Shape() && i < |f.inodes| && i < |g.inodes| && bn < MAXFILE
  {
    var d := g.Ptr(i, NDIRECT);
    if f.Ptr(i, Slot(bn)) != 0 then {}
    else
      {f.sb.BitmapBlock(g.Ptr(i, Slot(bn))), g.Ptr(i, Slot(bn))}
      + (if bn >= NDIRECT then {d} else {})
      + (if bn >= NDIRECT && f.Ptr(i, NDIRECT) == 0 then {f.sb.BitmapBlock(d)} else {})
  }

  /**
   What writing file blocks lo .. hi - 1 of inode i logs, from f0 to g: each of these blocks, the
   bitmap blocks of those that were missing, and the indirect block if one of them is there,
   with its bitmap block if it was missing too.
   */
  ghost function Logs(f0: Fs, g: Fs, i: nat, lo: nat, hi: nat): set<nat>
    requires f0.Shape() && g.Shape() && i < |f0.inodes| && i < |g.inodes| && lo <= hi <= MAXFILE
  {
    if lo == hi then {} else Logs(f0, g, i, lo, hi - 1) + BmapLogs(f0, g, i, hi - 1) + {g.Ptr(i, Slot(hi - 1))}
  }

  /** The blocks logged stay the same as further ones are mapped. */
  lemma {:induction false} LogsStay(f0: Fs, f: Fs, g: Fs, i: nat, lo: nat, hi: nat, cur: nat)
    requires MappedTo(f0, f, i, lo, cur) && OneMapped(f, g, i, cur) && lo <= hi <= cur
    ensures Logs(f0, g, i, lo, hi) == Logs(f0, f, i, lo, hi)
  {
    hide Fs.Ptr, Frees, Lacking, Lacks;
    if lo < hi {
      LogsStay(f0, f, g, i, lo, hi - 1, cur);
    }
  }

  /** What bmap logs for the next block, but for the bitmap block of an indirect block that was missing at first. */
  lemma LogsOne(f0: Fs, f: Fs, g: Fs, i: nat, lo: nat, cur: nat)
    requires MappedTo(f0, f, i, lo, cur) && OneMapped(f, g, i, cur) && f.sb == f0.sb
    ensures var md := {f0.sb.BitmapBlock(g.Ptr(i, NDIRECT))};
            if cur > NDIRECT && cur > lo && f0.Ptr(i, NDIRECT) == 0 then
              BmapLogs(f0, g, i, cur) + md == BmapLogs(f, g, i, cur) + md
            else BmapLogs(f0, g, i, cur) == BmapLogs(f, g, i, cur)
  {
    hide Fs.Ptr, Frees, Lacking, Lacks;
  }

  /** One more block. */
  lemma LogsStep(f0: Fs, f: Fs, g: Fs, i: nat, lo: nat, cur: nat)
    requires MappedTo(f0, f, i, lo, cur) && OneMapped(f, g, i, cur) && f.sb == f0.sb
    ensures Logs(f0, g, i, lo, cur + 1) == Logs(f0, f, i, lo, cur) + BmapLogs(f, g, i, cur) + {g.Ptr(i, Slot(cur))}
  {
    hide Fs.Ptr, Frees, Lacking, Lacks;
    LogsStay(f0, f, g, i, lo, cur, cur);
    if cur > NDIRECT && cur > lo && f0.Ptr(i, NDIRECT) == 0 { MapThere(f0, g, i, lo, cur); }
    LogsOne(f0, f, g, i, lo, cur);
    hide BmapLogs;
  }

  lemma {:induction false} LogsSame(f0: Fs, g: Fs, h: Fs, i: nat, lo: nat, hi: nat)
    requires f0.Shape() && SameSpace(g, h, i) && i < |f0.inodes| && lo <= hi <= MAXFILE
    ensures Logs(f0, h, i, lo, hi) == Logs(f0, g, i, lo, hi)
  {
    hide Fs.Ptr, Frees;
    if lo < hi {
      LogsSame(f0, g, h, i, lo, hi - 1);
    }
  }

  // ----- how many

  lemma AddOne(s: set<nat>, x: nat)
    ensures |s + {x}| <= |s| + 1
  {
    if x in s {
      assert s + {x} == s;
    }
  }

  lemma AddTwo(s: set<nat>, x: nat, y: nat)
    ensures |s + {x, y}| <= |s| + 2
  {
    AddOne(s, x);
    AddOne(s + {x}, y);
    assert s + {x, y} == s + {x} + {y};
  }

  /** What one block adds to s, the indirect block left out. */
  lemma OneLogs(f0: Fs, g: Fs, i: nat, bn: nat, s: set<nat>)
    requires f0.Shape() && g.Shape() && i < |f0.inodes| && i < |g.inodes| && bn < MAXFILE
    ensures var d := g.Ptr(i, NDIRECT);
            var md := f0.sb.BitmapBlock(d);
            var there := bn >= NDIRECT && f0.Ptr(i, NDIRECT) == 0 && (md in s || md == d);
            |s + (BmapLogs(f0, g, i, bn) + {g.Ptr(i, Slot(bn))} - {d})|
            <= |s| + 1 + Lacks(f0, i, bn) - if there then 1 else 0
  {
    var d, p := g.Ptr(i, NDIRECT), g.Ptr(i, Slot(bn));
    var md, mp := f0.sb.BitmapBlock(d), f0.sb.BitmapBlock(p);
    var missing, first := f0.Ptr(i, Slot(bn)) == 0, bn >= NDIRECT && f0.Ptr(i, NDIRECT) == 0;
    assert first ==> missing;
    var e := BmapLogs(f0, g, i, bn) + {p} - {d};
    hide Fs.Ptr;
    AddOne(s, p);
    AddTwo(s, p, mp);
    AddOne(s + {p, mp}, md);
    if !missing {
      CountSubset(s + e, s + {p});
    } else if !first || md in s || md == d {
      CountSubset(s + e, s + {p, mp});
    } else {
      CountSubset(s + e, s + {p, mp} + {md});
    }
  }

  /** Once a block beyond the direct ones was written, a missing indirect block's bitmap block is logged. */
  lemma MapThere(f0: Fs, g: Fs, i: nat, lo: nat, hi: nat)
    requires f0.Shape() && g.Shape() && i < |f0.inodes| && i < |g.inodes| && lo < hi <= MAXFILE
    requires hi > NDIRECT && f0.Ptr(i, NDIRECT) == 0
    ensures f0.Ptr(i, Slot(hi - 1)) == 0 && f0.sb.BitmapBlock(g.Ptr(i, NDIRECT)) in BmapLogs(f0, g, i, hi - 1)
    ensures f0.sb.BitmapBlock(g.Ptr(i, NDIRECT)) in Logs(f0, g, i, lo, hi)
  {
  }

  lemma LackingStep(f: Fs, i: nat, lo: nat, bn: nat)
    requires i < |f.inodes| && |f.inodes[i].addrs| == NDIRECT + 1 && lo <= bn < MAXFILE
    ensures Lacking(f, i, lo, bn + 1) == Lacking(f, i, lo, bn) + Lacks(f, i, bn)
                                         - if f.Ptr(i, NDIRECT) == 0 && bn > NDIRECT && bn > lo then 1 else 0
  {
    hide Fs.Ptr;
  }

  lemma Unite(s: set<nat>, e: set<nat>, d: nat)
    ensures s + e - {d} == (s - {d}) + (e - {d})
  {
  }

  lemma NoLogs(f0: Fs, g: Fs, i: nat, lo: nat)
    requires f0.Shape() && g.Shape() && i < |f0.inodes| && i < |g.inodes| && lo <= MAXFILE
    ensures Logs(f0, g, i, lo, lo) == {} && Lacking(f0, i, lo, lo) == 0
  {
  }

  lemma LogsCons(f0: Fs, g: Fs, i: nat, lo: nat, bn: nat)
    requires f0.Shape() && g.Shape() && i < |f0.inodes| && i < |g.inodes| && lo <= bn < MAXFILE
    ensures Logs(f0, g, i, lo, bn + 1) == Logs(f0, g, i, lo, bn) + (BmapLogs(f0, g, i, bn) + {g.Ptr(i, Slot(bn))})
  {
    hide Fs.Ptr, BmapLogs;
  }

  /** The indirect block left out, a block is logged once for itself and once more if it was missing. */
  lemma {:induction false} LogsCount(f0: Fs, g: Fs, i: nat, lo: nat, hi: nat)
    requires f0.Shape() && g.Shape() && i < |f0.inodes| && i < |g.inodes| && lo <= hi <= MAXFILE
    ensures |Logs(f0, g, i, lo, hi) - {g.Ptr(i, NDIRECT)}| <= hi - lo + Lacking(f0, i, lo, hi)
  {
    hide Fs.Ptr, BmapLogs, Lacks, Logs, Lacking;
    if lo == hi {
      NoLogs(f0, g, i, lo);
    } else {
      var bn, d := hi - 1, g.Ptr(i, NDIRECT);
      var logs, e := Logs(f0, g, i, lo, bn), BmapLogs(f0, g, i, bn) + {g.Ptr(i, Slot(bn))};
      LogsCount(f0, g, i, lo, bn);
      OneLogs(f0, g, i, bn, logs - {d});
      LackingStep(f0, i, lo, bn);
      if bn > NDIRECT && bn > lo && f0.Ptr(i, NDIRECT) == 0 { MapThere(f0, g, i, lo, bn); }
      Unite(logs, e, d);
      LogsCons(f0, g, i, lo, bn);
    }
  }

  lemma {:induction false} LackingBound(f: Fs, i: nat, lo: nat, hi: nat)
    requires i < |f.inodes| && |f.inodes[i].addrs| == NDIRECT + 1 && lo <= hi <= MAXFILE
    ensures Lacking(f, i, lo, hi) <= hi - lo + (if hi > NDIRECT && hi > lo && f.Ptr(i, NDIRECT) == 0 then 1 else 0)
                                     - if hi > lo && f.Ptr(i, Slot(lo)) != 0 then 1 else 0
  {
    if lo < hi {
      LackingBound(f, i, lo, hi - 1);
    }
  }

  /**
   A chunk of filewrite, with the inode block, stays within the blocks begin_op reserves, whatever
   bitmap blocks there are.
   */
  lemma LogsChunk(f0: Fs, g: Fs, i: nat, off: nat, n: nat, inodeBlock: nat)
    requires f0.Valid() && g.Shape() && i < |f0.inodes| && i < |g.inodes| && off <= f0.inodes[i].size
    requires 0 < n <= CHUNK && off + n <= MAXFILE * BSIZE
    ensures off / BSIZE <= EndBlock(off, n) <= MAXFILE
    ensures |Logs(f0, g, i, off / BSIZE, EndBlock(off, n)) + {inodeBlock}| <= MAXOPBLOCKS
  {
    EndFits(off, n);
    var lo, hi, d := off / BSIZE, EndBlock(off, n), g.Ptr(i, NDIRECT);
    var s := Logs(f0, g, i, lo, hi);
    LogsCount(f0, g, i, lo, hi);
    LackingBound(f0, i, lo, hi);
    AddTwo(s - {d}, d, inodeBlock);
    CountSubset(s + {inodeBlock}, s - {d} + {d, inodeBlock});
    ChunkBlocks(off, n);
    if off % BSIZE != 0 {
      assert lo * BSIZE < f0.inodes[i].size && f0.Ptr(i, Slot(lo)) != 0;
    }
  }

  lemma ChunkBlocks(off: nat, n: nat)
    requires 0 < n <= CHUNK
    ensures EndBlock(off, n) - off / BSIZE <= if off % BSIZE == 0 then 3 else 4
  {
  }
}
