/**
 kernel/log.c over the buffer cache: write_log, write_head, install_trans, commit,
 log_write and recover_from_log, each tied to the block writes DiskLog specifies.
 A method returns ok == false where the kernel panics; nothing runs after that, so what
 matters then is only which writes had reached the disk.
 */
module WriteAheadLog {
  import opened Params
  import opened Sequences
  import opened DiskLog
  import opened BufferCache

  /** An idle buffer is one with count zero; hides the rest of the cache's state. */
  lemma IdleMeans(s: State)
    requires s.Ok()
    ensures forall k :: 0 <= k < NBUF ==> (k in s.Idle() <==> s.bufs[k].refcnt == 0)
  {
  }

  /** Every block listed has a reference. */
  ghost predicate Pinned(s: State, lh: seq<int>)
    requires s.Ok()
  {
    forall t :: 0 <= t < |lh| && 0 <= lh[t] < |s.disk| ==> s.Refs()[lh[t]] > 0
  }

  /** The counts of the two blocks that round tail touches are not about to wrap upward. */
  ghost predicate Room(g: Geometry, s: State, lh: seq<int>, tail: nat)
    requires s.Ok()
  {
    && tail < |lh| && g.start + 1 + tail < |s.disk| && 0 <= lh[tail] < |s.disk|
    && s.Refs()[g.start + 1 + tail] + 2 < WRAP
    && s.Refs()[lh[tail]] + 2 < WRAP
  }

  ghost predicate Roomy(g: Geometry, s: State, lh: seq<int>)
    requires s.Ok()
  {
    forall t :: 0 <= t < |lh| ==> Room(g, s, lh, t)
  }

  lemma RoomySame(g: Geometry, s: State, t: State, lh: seq<int>)
    requires s.Ok() && t.Ok() && s.Refs() == t.Refs() && Roomy(g, s, lh)
    ensures Roomy(g, t, lh)
  {
    assert |s.disk| == |s.Refs()| && |t.disk| == |t.Refs()|;
    assert forall i :: 0 <= i < |lh| ==> Room(g, s, lh, i) ==> Room(g, t, lh, i);
  }

  /** The cache holds nothing newer than the disk for the log area. */
  ghost predicate LogClean(g: Geometry, s: State)
    requires s.Ok()
  {
    forall c :: g.InLog(c) && c < |s.disk| ==> s.Views()[c] == s.disk[c]
  }

  class Log {
    const bc: Cache
    const g: Geometry
    var lh: seq<int>              // lh.block[0..lh.n]

    constructor (bc: Cache, g: Geometry)
      ensures this.bc == bc && this.g == g && lh == []
    {
      this.bc := bc;
      this.g := g;
      lh := [];
    }

    /** The log fits the disk and lh may be logged. */
    ghost predicate Ready()
      reads this, bc
    {
      && bc.Valid()
      && 1 <= g.size && g.start + g.size <= |bc.disk|
      && TxOk(g, |bc.disk|, lh)
    }

    lemma RoundBlocks(tail: nat)
      requires Ready() && tail < |lh| && Room(g, bc.S(), lh, tail)
      ensures g.start + 1 + tail < |bc.disk| && 0 <= lh[tail] < |bc.disk| && lh[tail] != g.start + 1 + tail
      ensures bc.S().Refs()[g.start + 1 + tail] + 2 < WRAP
      ensures bc.S().Refs()[lh[tail]] + 2 < WRAP
    {
      assert g.InLog(g.start + 1 + tail);
    }

    /** Second half of a write_log round: copy cached block b into held buffer i, write that, let b go. */
    method CopyAndWrite(i: nat, l: nat, b: nat)
      requires bc.Valid() && l < |bc.disk| && b < |bc.disk| && b != l
      requires bc.S().Holding(i, l) && 0 < bc.S().Refs()[b] && bc.S().Refs()[b] + 1 < WRAP
      modifies bc
      ensures bc.Valid()
      ensures var w := Write(l, old(bc.S()).Views()[b]);
              && bc.writes == old(bc.writes) + [w]
              && bc.disk == old(bc.disk)[l := w.data]
              && bc.S().Views() == old(bc.S()).Views()[l := w.data]
      ensures bc.S().Refs() == old(bc.S()).Refs() && bc.S().Idle() == old(bc.S()).Idle()
      ensures bc.S().Holding(i, l)
      ensures bc.bufs[i].refcnt == old(bc.bufs)[i].refcnt && bc.bufs[i].data == bc.disk[l]
    {
      hide State.Ok, State.Views, State.Refs, State.Idle;
      IdleMeans(bc.S());
      var ok, j := bc.Bread(b);
      bc.SetData(i, l, bc.bufs[j].data);
      bc.Bwrite(i, l);
      bc.Brelse(j);
    }

    /** One round of write_log. */
    method LogOne(tail: nat) returns (ok: bool)
      requires Ready() && tail < |lh| && Room(g, bc.S(), lh, tail)
      requires bc.S().Refs()[lh[tail]] > 0
      modifies bc
      ensures bc.Valid() && |bc.disk| == old(|bc.disk|)
      ensures old(bc.S()).Idle() != {} ==> ok
      ensures !ok ==> bc.writes == old(bc.writes) && bc.disk == old(bc.disk)
      ensures ok ==> bc.writes == old(bc.writes) + [Write(g.start + 1 + tail, old(bc.S()).Views()[lh[tail]])]
      ensures ok ==> bc.disk == old(bc.disk)[g.start + 1 + tail := old(bc.S()).Views()[lh[tail]]]
      ensures ok ==> bc.S().Views() == old(bc.S()).Views()[g.start + 1 + tail := old(bc.S()).Views()[lh[tail]]]
      ensures ok ==> bc.S().Refs() == old(bc.S()).Refs()
      ensures ok ==> bc.S().Idle() == old(bc.S()).Idle()
    {
      hide State.Ok, State.Views, State.Refs, State.Idle, TxOk, Room;
      RoundBlocks(tail);
      IdleMeans(bc.S());
      var l, b: nat := g.start + 1 + tail, lh[tail];
      var i;
      ok, i := bc.Bread(l);
      if ok {
        CopyAndWrite(i, l, b);
        bc.Brelse(i);
      }
    }

    /** First half of an install_trans round, log block l being held in buffer i: read, overwrite, write, unpin d. */
    method CopyHome(i: nat, l: nat, d: nat) returns (ok: bool, j: nat)
      requires bc.Valid() && l < |bc.disk| && d < |bc.disk| && d != l
      requires bc.S().Holding(i, l) && bc.S().Refs()[d] + 1 < WRAP
      modifies bc
      ensures bc.Valid()
      ensures old(bc.S()).Refs()[d] > 0 || old(bc.S()).Idle() != {} ==> ok
      ensures !ok ==> bc.writes == old(bc.writes) && bc.disk == old(bc.disk)
      ensures ok ==> bc.writes == old(bc.writes) + [Write(d, old(bc.bufs)[i].data)]
      ensures ok ==> bc.disk == old(bc.disk)[d := old(bc.bufs)[i].data]
      ensures ok ==> bc.S().Views() == old(bc.S()).Views()[d := old(bc.bufs)[i].data]
      ensures ok ==> bc.S().Refs() == old(bc.S()).Refs()
      ensures ok ==> j < NBUF && j != i && bc.bufs[j].dev == ROOTDEV && bc.bufs[j].blockno == d
      ensures ok ==> bc.bufs[j].data == bc.disk[d] && bc.bufs[j].refcnt == old(bc.S()).Refs()[d]
      ensures ok ==> bc.bufs[i] == old(bc.bufs)[i] && old(bc.bufs)[j].refcnt == old(bc.S()).Refs()[d]
      ensures ok ==> bc.S().Idle() == old(bc.S()).Idle()
    {
      hide State.Ok, State.Views, State.Refs, State.Idle;
      IdleMeans(bc.S());
      ok, j := bc.Bread(d);
      if ok {
        bc.SetData(j, d, bc.bufs[i].data);
        bc.Bwrite(j, d);
        bc.Bunpin(j);
      }
    }

    /** One round of install_trans, using buffers i and j. */
    method InstallOne(tail: nat) returns (ok: bool, i: nat, j: nat)
      requires Ready() && tail < |lh| && Room(g, bc.S(), lh, tail)
      requires bc.S().Views()[g.start + 1 + tail] == bc.disk[g.start + 1 + tail]
      modifies bc
      ensures bc.Valid() && |bc.disk| == old(|bc.disk|)
      ensures old(bc.S()).Idle() != {} && (old(bc.S()).Refs()[lh[tail]] > 0 || old(bc.S()).Idle() - {i} != {}) ==> ok
      ensures !ok ==> bc.writes == old(bc.writes) && bc.disk == old(bc.disk)
      ensures ok ==> bc.writes == old(bc.writes) + [Write(lh[tail], old(bc.disk)[g.start + 1 + tail])]
      ensures ok ==> bc.disk == old(bc.disk)[lh[tail] := old(bc.disk)[g.start + 1 + tail]]
      ensures ok ==> bc.S().Views() == old(bc.S()).Views()[lh[tail] := old(bc.disk)[g.start + 1 + tail]]
      ensures ok ==> bc.S().Refs() == old(bc.S()).Refs()[lh[tail] := Dec(old(bc.S()).Refs()[lh[tail]])]
      ensures ok ==> i != j && i < NBUF && j < NBUF
      ensures ok ==> old(bc.bufs)[i].refcnt == old(bc.S()).Refs()[g.start + 1 + tail]
      ensures ok ==> old(bc.bufs)[j].refcnt == old(bc.S()).Refs()[lh[tail]]
      ensures ok ==> bc.S().Idle() == Freed(Freed(old(bc.S()).Idle() - {i}, i, old(bc.bufs)[i].refcnt),
                                            j, Dec(old(bc.bufs)[j].refcnt))
    {
      hide State.Ok, State.Views, State.Refs, State.Idle, TxOk, Room, Freed;
      RoundBlocks(tail);
      var l, d: nat := g.start + 1 + tail, lh[tail];
      ghost var r0 := bc.S().Refs();
      ok, i := bc.Bread(l);
      if !ok { j := 0; return; }
      ok, j := InstallFrom(i, l, d);
      PutBack(r0, l, d, Dec(r0[d]));
    }

    /** The rest of an install_trans round, with log block l in clean buffer i. */
    method InstallFrom(i: nat, l: nat, d: nat) returns (ok: bool, j: nat)
      requires bc.Valid() && l < |bc.disk| && d < |bc.disk| && d != l
      requires bc.S().Holding(i, l) && bc.S().Refs()[d] + 1 < WRAP
      requires bc.bufs[i].data == bc.disk[l]
      modifies bc
      ensures bc.Valid()
      ensures old(bc.S()).Refs()[d] > 0 || old(bc.S()).Idle() != {} ==> ok
      ensures !ok ==> bc.writes == old(bc.writes) && bc.disk == old(bc.disk)
      ensures ok ==> bc.writes == old(bc.writes) + [Write(d, old(bc.disk)[l])]
      ensures ok ==> bc.disk == old(bc.disk)[d := old(bc.disk)[l]]
      ensures ok ==> bc.S().Views() == old(bc.S()).Views()[d := old(bc.disk)[l]]
      ensures ok ==>
                var r := old(bc.S()).Refs();
                bc.S().Refs() == r[l := Dec(old(bc.bufs)[i].refcnt)][d := Dec(r[d])]
      ensures ok ==> j != i && j < NBUF && old(bc.bufs)[j].refcnt == old(bc.S()).Refs()[d]
      ensures ok ==> bc.S().Idle() == Freed(Freed(old(bc.S()).Idle(), i, Dec(old(bc.bufs)[i].refcnt)),
                                            j, Dec(old(bc.S()).Refs()[d]))
    {
      hide State.Ok, State.Views, State.Refs, State.Idle;
      ok, j := CopyHome(i, l, d);
      if !ok { return; }
      assert bc.S().MayDrop(i) && bc.S().MayDrop(j);
      ReleasePair(i, j);
    }

    /** brelse(lbuf); brelse(dbuf) */
    method ReleasePair(i: nat, j: nat)
      requires bc.Valid() && bc.S().MayDrop(i) && bc.S().MayDrop(j) && i != j && i < NBUF && j < NBUF
      requires bc.bufs[i].blockno != bc.bufs[j].blockno
      modifies bc`bufs, bc`order
      ensures bc.Valid()
      ensures bc.bufs[i].refcnt == Dec(old(bc.bufs)[i].refcnt) && bc.bufs[j].refcnt == Dec(old(bc.bufs)[j].refcnt)
      ensures bc.S().Views() == old(bc.S()).Views()
      ensures bc.S().Refs() == old(bc.S()).Refs()[old(bc.bufs)[i].blockno := Dec(old(bc.bufs)[i].refcnt)]
                                                 [old(bc.bufs)[j].blockno := Dec(old(bc.bufs)[j].refcnt)]
      ensures bc.S().Idle() == Freed(Freed(old(bc.S()).Idle(), i, bc.bufs[i].refcnt), j, bc.bufs[j].refcnt)
    {
      hide State.Ok, State.Views, State.Refs, State.Idle;
      bc.Brelse(i);
      bc.Brelse(j);
    }

    /** hb->n = n, then hb->block[i] = block[i] for each i. */
    method FillHeader(blk: Block) returns (r: Block)
      requires |blk| == WORDS && |lh| <= LOGSIZE
      ensures r == PutHeader(blk, lh)
    {
      r := blk[0 := |lh|];
      var i := 0;
      while i < |lh|
        invariant 0 <= i <= |lh|
        invariant r == [|lh|] + lh[..i] + blk[1 + i..]
      {
        r := r[1 + i := lh[i]];
        i := i + 1;
      }
    }

    /** write_head: one block write, of the header listing lh. */
    method WriteHead() returns (ok: bool)
      requires bc.Valid() && g.start < |bc.disk| && |lh| <= LOGSIZE
      requires |bc.S().Views()[g.start]| == WORDS && bc.S().Refs()[g.start] + 1 < WRAP
      modifies bc
      ensures bc.Valid()
      ensures !ok <==> g.start !in old(bc.slot) && old(bc.S()).Idle() == {}
      ensures !ok ==> bc.writes == old(bc.writes) && bc.disk == old(bc.disk)
      ensures ok ==> Did(old(bc.S()), old(bc.writes), HeadWrite(g, lh, old(bc.S()).Views())) && g.start in bc.slot
      ensures ok ==> bc.S().Refs() == old(bc.S()).Refs()
      ensures ok ==> bc.S().Idle() == old(bc.S()).Idle()
    {
      hide State.Ok, State.Views, State.Refs, State.Idle;
      IdleMeans(bc.S());
      var i;
      ok, i := bc.Bread(g.start);
      if ok {
        var hb := FillHeader(bc.bufs[i].data);
        bc.SetData(i, g.start, hb);
        bc.Bwrite(i, g.start);
        bc.Brelse(i);
        OneWrite(old(bc.disk), g.start, hb);
        OneWrite(old(bc.S()).Views(), g.start, hb);
      }
    }

    /** block[i] = lh->block[i] for each i below lh->n. */
    method ParseHeader(hb: Block) returns (r: seq<int>)
      requires |hb| == WORDS && 0 <= hb[0] <= LOGSIZE
      ensures r == HeaderOf(hb)
    {
      r := [];
      var i := 0;
      while i < hb[0]
        invariant 0 <= i <= hb[0]
        invariant r == hb[1..1 + i]
      {
        r := r + [hb[1 + i]];
        i := i + 1;
      }
    }

    /** read_head: the in-memory header becomes the one on disk. */
    method ReadHead() returns (ok: bool)
      requires bc.Valid() && g.start < |bc.disk|
      requires bc.S().Views()[g.start] == bc.disk[g.start] && bc.S().Refs()[g.start] + 1 < WRAP
      requires |bc.disk[g.start]| == WORDS && 0 <= bc.disk[g.start][0] <= LOGSIZE
      modifies bc`bufs, bc`slot, bc`order, this
      ensures bc.Valid()
      ensures old(bc.S()).Idle() != {} ==> ok
      ensures ok ==> lh == HeaderOf(bc.disk[g.start])
      ensures ok ==> bc.S().Views() == old(bc.S()).Views() && bc.S().Refs() == old(bc.S()).Refs()
      ensures ok ==> bc.S().Idle() == old(bc.S()).Idle()
    {
      hide State.Ok, State.Views, State.Refs, State.Idle;
      IdleMeans(bc.S());
      var i;
      ok, i := bc.Bread(g.start);
      if ok {
        lh := ParseHeader(bc.bufs[i].data);
        bc.Brelse(i);
      }
    }

    /** Reached from state s0 and write history w0 by performing the writes ws; counts and idle buffers as in s0. */
    ghost predicate Did(s0: State, w0: seq<Write>, ws: seq<Write>)
      requires s0.Ok()
      reads this, bc
    {
      && Wrote(s0.disk, w0, ws)
      && bc.Valid()
      && bc.S().Views() == Apply(s0.Views(), ws)
    }

    /** The disk writes since disk d0 and history w0 are exactly ws. */
    ghost predicate Wrote(d0: Disk, w0: seq<Write>, ws: seq<Write>)
      reads this, bc
    {
      && InRange(d0, ws)
      && bc.writes == w0 + ws
      && bc.disk == Apply(d0, ws)
    }

    lemma DidNothing(ws: seq<Write>)
      requires bc.Valid()
      ensures Did(bc.S(), bc.writes, ws[..0])
    {
      NoWrites(ws, bc.disk, bc.S().Views());
    }

    method WriteLogRound(tail: nat, ghost s0: State, ghost w0: seq<Write>) returns (ok: bool)
      requires Ready() && tail < |lh|
      requires s0.Ok() && |s0.disk| == |bc.disk|
      requires Room(g, s0, lh, tail) && s0.Refs()[lh[tail]] > 0 && bc.S().Refs() == s0.Refs()
      requires Did(s0, w0, LogWrites(g, lh, s0.Views())[..tail])
      modifies bc
      ensures Ready() && |bc.disk| == |s0.disk|
      ensures old(bc.S()).Idle() != {} ==> ok
      ensures !ok ==> Wrote(s0.disk, w0, LogWrites(g, lh, s0.Views())[..tail])
      ensures ok ==> Did(s0, w0, LogWrites(g, lh, s0.Views())[..tail + 1])
      ensures ok ==> bc.S().Refs() == old(bc.S()).Refs() && bc.S().Idle() == old(bc.S()).Idle()
    {
      hide State.Ok, State.Views, State.Refs, State.Idle, TxOk, Apply, LogWrites, InRange;
      LogRound(g, lh, s0.disk, s0.Views(), tail);
      ok := LogOne(tail);
    }

    /** write_log: copy every logged block to the log, in order. */
    method WriteLog() returns (ok: bool, ghost done: nat)
      requires Ready()
      requires Roomy(g, bc.S(), lh) && Pinned(bc.S(), lh)
      modifies bc
      ensures Ready()
      ensures done <= |lh| && (ok ==> done == |lh|)
      ensures old(bc.S()).Idle() != {} ==> ok
      ensures Wrote(old(bc.disk), old(bc.writes), LogWrites(g, lh, old(bc.S()).Views())[..done])
      ensures ok ==> Did(old(bc.S()), old(bc.writes), LogWrites(g, lh, old(bc.S()).Views())[..|lh|])
      ensures ok ==> bc.S().Refs() == old(bc.S()).Refs() && bc.S().Idle() == old(bc.S()).Idle()
    {
      ghost var s0, w0 := bc.S(), bc.writes;
      hide State.Ok, State.Views, State.Refs, State.Idle, TxOk, Apply, LogWrites, Wrote;
      DidNothing(LogWrites(g, lh, s0.Views()));
      ok := true;
      done := 0;
      var tail := 0;
      while tail < |lh|
        invariant 0 <= tail <= |lh| && done == tail
        invariant Ready() && |bc.disk| == |s0.disk|
        invariant Did(s0, w0, LogWrites(g, lh, s0.Views())[..tail])
        invariant bc.S().Refs() == s0.Refs() && bc.S().Idle() == s0.Idle()
      {
        ok := WriteLogRound(tail, s0, w0);
        if !ok { return; }
        tail := tail + 1;
        done := tail;
      }
    }

    /** install_trans got to round tail, having started in state s0 with write history w0. */
    ghost predicate Installing(s0: State, w0: seq<Write>, tail: nat)
      requires s0.Ok()
      reads this, bc
    {
      && Ready() && |bc.disk| == |s0.disk| && tail <= |lh|
      && Did(s0, w0, InstallWrites(g, lh, s0.Views())[..tail])
      && bc.S().Refs() == Unpinned(s0.Refs(), lh[..tail])
      && (Pinned(s0, lh) ==> s0.Idle() <= bc.S().Idle())
      && |bc.S().Idle()| >= |s0.Idle()| - tail
    }

    lemma StartInstalling()
      requires Ready()
      ensures Installing(bc.S(), bc.writes, 0)
    {
      DidNothing(InstallWrites(g, lh, bc.S().Views()));
      UnpinNone(bc.S().Refs());
      assert lh[..0] == [];
    }

    method InstallRound(tail: nat, ghost s0: State, ghost w0: seq<Write>) returns (ok: bool)
      requires s0.Ok() && Installing(s0, w0, tail) && tail < |lh|
      requires LogClean(g, s0) && Room(g, s0, lh, tail)
      modifies bc
      ensures (s0.Idle() != {} && Pinned(s0, lh)) || |s0.Idle()| > |lh| ==> ok
      ensures bc.Valid()
      ensures !ok ==> Wrote(s0.disk, w0, InstallWrites(g, lh, s0.Views())[..tail])
      ensures ok ==> Installing(s0, w0, tail + 1)
    {
      hide State.Ok, State.Views, State.Refs, State.Idle, TxOk, Apply, InstallWrites, InRange, Unpinned;
      UnpinRound(g, lh, s0.Refs(), tail);
      HomeRound(g, lh, s0.disk, s0.Views(), tail);
      ghost var s1 := bc.S();
      IdleMeans(s1);
      var i, j;
      ok, i, j := InstallOne(tail);
      RemoveOne(s1.Idle(), i);
      if ok {
        IdleAfter(s1.Idle(), i, j, s1.bufs[i].refcnt, Dec(s1.bufs[j].refcnt));
      }
    }

    /**
     install_trans: copy every log block to its home block, in order, and unpin it.
     One idle buffer is enough when all home blocks are pinned; |lh| + 1 when none is.
     */
    method InstallTrans() returns (ok: bool, ghost done: nat)
      requires Ready()
      requires LogClean(g, bc.S()) && Roomy(g, bc.S(), lh)
      modifies bc
      ensures bc.Valid()
      ensures done <= |lh| && (ok ==> done == |lh|)
      ensures old(bc.S().Idle() != {} && Pinned(bc.S(), lh)) || |old(bc.S()).Idle()| > |lh| ==> ok
      ensures Wrote(old(bc.disk), old(bc.writes), InstallWrites(g, lh, old(bc.S()).Views())[..done])
      ensures ok ==> Installing(old(bc.S()), old(bc.writes), |lh|)
    {
      ghost var s0, w0 := bc.S(), bc.writes;
      hide State.Ok, State.Views, State.Refs, State.Idle, TxOk, InstallWrites, Wrote, Room, LogClean, Pinned;
      StartInstalling();
      ok := true;
      done := 0;
      var tail := 0;
      while tail < |lh|
        invariant 0 <= tail <= |lh| && done == tail
        invariant Installing(s0, w0, tail)
      {
        ok := InstallRound(tail, s0, w0);
        if !ok { return; }
        tail := tail + 1;
        done := tail;
      }
    }

    /**
     log_write on held buffer i of block b while `outstanding` operations run: panics exactly
     when the log is full by either guard or no operation runs; otherwise b is listed once and,
     when newly listed, pinned.
     */
    method LogWrite(i: nat, b: nat, outstanding: int) returns (ok: bool)
      requires Ready() && bc.S().Holding(i, b) && !g.InLog(b) && bc.bufs[i].refcnt + 1 < WRAP
      modifies bc`bufs, this`lh
      ensures ok <==> |old(lh)| < LOGSIZE && |old(lh)| < g.size - 1 && outstanding >= 1
      ensures !ok ==> lh == old(lh) && bc.bufs == old(bc.bufs)
      ensures ok ==> Ready() && lh == if b in old(lh) then old(lh) else old(lh) + [b]
      ensures bc.Valid() && bc.S().Views() == old(bc.S()).Views()
      ensures bc.S().Refs() == if ok && b !in old(lh) then old(bc.S()).Refs()[b := old(bc.bufs)[i].refcnt + 1]
                else old(bc.S()).Refs()
      ensures bc.S().Holding(i, b)
    {
      hide State.Ok, State.Views, State.Refs, State.Idle;
      var added;
      ok, added := List(b, outstanding);
      if added { bc.Bpin(i); }
    }

    /** log_write but for the pin. */
    method List(b: nat, outstanding: int) returns (ok: bool, added: bool)
      requires TxOk(g, |bc.disk|, lh) && b < |bc.disk| && !g.InLog(b)
      modifies this`lh
      ensures ok <==> |old(lh)| < LOGSIZE && |old(lh)| < g.size - 1 && outstanding >= 1
      ensures added <==> ok && b !in old(lh)
      ensures TxOk(g, |bc.disk|, lh) && lh == if added then old(lh) + [b] else old(lh)
    {
      if |lh| >= LOGSIZE || |lh| >= g.size - 1 {
        return false, false;
      }
      if outstanding < 1 {
        return false, false;
      }
      var k := 0;
      while k < |lh| && lh[k] != b
        invariant 0 <= k <= |lh|
        invariant b !in lh[..k]
      {
        k := k + 1;
      }
      added := k == |lh|;
      if added {
        assert lh[..k] == lh;
        lh := lh + [b];
      } else {
        assert lh[k := b] == lh;
        lh := lh[k := b];
      }
      ok := true;
    }

    // ----- whole commits and recoveries

    /** Doing vs after ws is doing ws + vs. */
    lemma DidThen(s0: State, w0: seq<Write>, ws: seq<Write>, s1: State, w1: seq<Write>, vs: seq<Write>)
      requires s0.Ok() && s1.Ok() && InRange(s0.disk, ws)
      requires s1.disk == Apply(s0.disk, ws) && s1.Views() == Apply(s0.Views(), ws) && w1 == w0 + ws
      ensures Wrote(s1.disk, w1, vs) ==> Wrote(s0.disk, w0, ws + vs)
      ensures Did(s1, w1, vs) ==> Did(s0, w0, ws + vs)
    {
      hide State.Ok, State.Views, Apply;
      if Wrote(s1.disk, w1, vs) {
        ApplyConcat(s0.disk, ws, vs);
        ApplyConcat(s0.Views(), ws, vs);
        assert w1 + vs == w0 + (ws + vs);
      }
    }

    /** log->lh.n = 0; write_head(), after installing: shared by commit and recovery. */
    method InstallAndClear() returns (ok: bool, ghost done: nat)
      requires Ready()
      requires LogClean(g, bc.S()) && Roomy(g, bc.S(), lh)
      requires |bc.S().Views()[g.start]| == WORDS && bc.S().Refs()[g.start] + 1 < WRAP
      modifies bc, this
      ensures done <= |Finish(g, old(lh), old(bc.S()).Views())|
      ensures old(bc.S().Idle() != {} && Pinned(bc.S(), lh)) || |old(bc.S()).Idle()| > |old(lh)| ==> ok
      ensures Wrote(old(bc.disk), old(bc.writes), Finish(g, old(lh), old(bc.S()).Views())[..done])
      ensures ok ==> Did(old(bc.S()), old(bc.writes), Finish(g, old(lh), old(bc.S()).Views()))
      ensures ok ==> Ready() && lh == [] && bc.S().Refs() == Unpinned(old(bc.S()).Refs(), old(lh)) && g.start in bc.slot
    {
      hide State.Ok, State.Views, State.Refs, State.Idle, Apply, InstallWrites;
      hide Finish, HeadWrite, Room, LogClean, PutHeader, Unpinned;
      ghost var s0, w0, h := bc.S(), bc.writes, lh;
      ghost var inst := InstallWrites(g, h, s0.Views());
      FinishParts(g, h, s0.Views(), s0.disk);
      HeadNotUnpinned(g, h, s0.Refs());
      ok, done := InstallTrans();
      if !ok { return; }
      lh := [];
      ghost var s1, w1 := bc.S(), bc.writes;
      ok := WriteHead();
      done := if ok then |h| + 1 else |h|;
      DidThen(s0, w0, inst, s1, w1, HeadWrite(g, [], s0.Views()));
    }

    /** write_log(); write_head(): the last of these writes commits. */
    method LogAndCommit() returns (ok: bool, ghost done: nat)
      requires Ready() && Roomy(g, bc.S(), lh) && Pinned(bc.S(), lh)
      requires |bc.S().Views()[g.start]| == WORDS && bc.S().Refs()[g.start] + 1 < WRAP
      modifies bc
      ensures done <= |lh| + 1
      ensures old(bc.S()).Idle() != {} ==> ok
      ensures Wrote(old(bc.disk), old(bc.writes), Point(g, lh, old(bc.S()).Views())[..done])
      ensures ok ==> Did(old(bc.S()), old(bc.writes), Point(g, lh, old(bc.S()).Views()))
      ensures ok ==> Ready() && bc.S().Refs() == old(bc.S()).Refs() && bc.S().Idle() == old(bc.S()).Idle()
    {
      hide State.Ok, State.Views, State.Refs, State.Idle, Apply, LogWrites;
      hide Point, HeadWrite, Room, Roomy, Pinned, PutHeader;
      ghost var s0, w0 := bc.S(), bc.writes;
      ghost var logs := LogWrites(g, lh, s0.Views());
      PointParts(g, lh, s0.Views(), s0.disk);
      ok, done := WriteLog();
      if !ok { return; }
      ghost var s1, w1 := bc.S(), bc.writes;
      ok := WriteHead();
      done := if ok then |lh| + 1 else |lh|;
      DidThen(s0, w0, logs, s1, w1, HeadWrite(g, lh, s0.Views()));
    }

    /**
     commit: the block writes that reach the disk are a prefix of CommitWrites, and all
     of them if no bread panics, which one idle buffer is enough to rule out.
     */
    method Commit() returns (ok: bool, ghost done: nat)
      requires Ready() && LogClean(g, bc.S()) && Roomy(g, bc.S(), lh) && Pinned(bc.S(), lh)
      requires |bc.S().Views()[g.start]| == WORDS && bc.S().Refs()[g.start] + 1 < WRAP
      modifies bc, this
      ensures done <= |AllWrites(g, old(lh), old(bc.S()).Views())|
      ensures old(bc.S()).Idle() != {} ==> ok
      ensures Wrote(old(bc.disk), old(bc.writes), AllWrites(g, old(lh), old(bc.S()).Views())[..done])
      ensures ok ==> Did(old(bc.S()), old(bc.writes), AllWrites(g, old(lh), old(bc.S()).Views()))
      ensures ok ==> Ready() && lh == [] && bc.S().Refs() == Unpinned(old(bc.S()).Refs(), old(lh))
    {
      hide State.Ok, State.Views, State.Refs, State.Idle, Apply, Finish, Point, PutHeader, Unpinned, AllWrites;
      ghost var s0, w0, h := bc.S(), bc.writes, lh;
      CommitParts(g, h, s0.Views(), s0.disk);
      if |lh| > 0 {
        ok, done := LogAndCommit();
        if !ok { return; }
        ghost var s1, w1 := bc.S(), bc.writes;
        RoomySame(g, s0, s1, h);
        ghost var k;
        ok, k := InstallAndClear();
        done := |h| + 1 + k;
        DidThen(s0, w0, Point(g, h, s0.Views()), s1, w1, Finish(g, h, s1.Views())[..k]);
        DidThen(s0, w0, Point(g, h, s0.Views()), s1, w1, Finish(g, h, s1.Views()));
      } else {
        DidNothing(AllWrites(g, h, s0.Views()));
        UnpinNone(s0.Refs());
        ok, done := true, 0;
      }
    }

    /**
     recover_from_log on a freshly booted cache. It panics ("bget: no buffers") exactly on
     a header that lists NBUF blocks. Otherwise it performs all of RecoverWrites, and leaves
     every listed block's count one below zero, because install_trans unpins what boot never pinned.
     */
    method RecoverFromLog() returns (ok: bool, ghost done: nat)
      requires bc.Valid() && Booted(bc.S()) && WellFormed(g, bc.disk)
      modifies bc, this
      ensures done <= |RecoverWrites(g, old(bc.disk))|
      ensures Wrote(old(bc.disk), old(bc.writes), RecoverWrites(g, old(bc.disk))[..done])
      ensures ok <==> |HeaderOf(old(bc.disk)[g.start])| < NBUF
      ensures ok ==> Did(old(bc.S()), old(bc.writes), RecoverWrites(g, old(bc.disk)))
      ensures ok ==> Ready() && lh == [] && bc.S().Refs() == AfterBoot(g, old(bc.disk))
    {
      hide State.Ok, State.Views, State.Refs, State.Idle, Apply, Unpinned, AfterBoot, PutHeader;
      ghost var s0, w0 := bc.S(), bc.writes;
      BootedState(s0);
      BootPlan(g, s0);
      DidNothing([]);
      ok := ReadHead();
      ghost var s1 := bc.S();
      BootPlanStill(g, s0, s1, lh);
      ok, done := InstallAndClear();
      if ok {
        AfterBootIs(g, s0.disk, s0.Refs());
        BootFits(g, s0.disk, bc.S());
      }
    }

    /**
     What a count of 2^32 - 1 does, with no buffer idle. A process reads such a block, changes
     it, passes it to log_write and releases it, which leaves `mid`: the block is listed, but
     the count has wrapped to 0, and so the pin keeps nothing. The next block that is read
     takes the buffer, and the listed block reads as on disk again, before any commit.
     */
    method LosesChange(b: nat, data: Block, c: nat) returns (i: nat, ghost mid: State)
      requires Ready() && b < |bc.disk| && bc.S().Refs()[b] == WRAP - 1 && bc.S().Idle() == {}
      requires !g.InLog(b) && b !in lh && |lh| < LOGSIZE && |lh| < g.size - 1
      requires c < |bc.disk| && c !in bc.slot
      modifies bc`bufs, bc`slot, bc`order, this`lh
      ensures Ready() && lh == old(lh) + [b]
      ensures Overtaken(old(bc.S()), i, b, data, mid, c, bc.bufs)
      ensures b !in bc.slot && bc.S().Views() == old(bc.S()).Views()[b := bc.disk[b]]
    {
      hide State.Ok, State.Views, State.Refs, State.Idle, State.Mapped, TxOk;
      ghost var s := bc.S();
      i := bc.ReadWrapped(b, data);
      var ok, added := List(b, 1);
      bc.PinAndRelease(i);
      mid := bc.S();
      bc.TakeWrapped(s, b, data, i, c);
    }

    /**
     So it goes after a boot that had something to recover. Processes read blocks of `others`
     until no buffer is idle, which leaves `full`; then a change of a recovered block is lost
     though the log lists it, and every block reads as recovery left it.
     */
    method BootLosesChange(b: nat, data: Block, others: seq<nat>)
      returns (ok: bool, ghost k: nat, ghost i: nat, ghost full: State, ghost mid: State)
      requires bc.Valid() && Booted(bc.S()) && WellFormed(g, bc.disk) && b in HeaderOf(bc.disk[g.start])
      requires |others| > NBUF && forall i, j :: 0 <= i < j < |others| ==> others[i] != others[j]
      requires forall i :: 0 <= i < |others| ==> others[i] < |bc.disk| && others[i] !in HeaderOf(bc.disk[g.start])
      modifies bc, this
      ensures ok <==> |HeaderOf(old(bc.disk)[g.start])| < NBUF
      ensures ok ==> bc.Valid() && bc.disk == Recovered(g, old(bc.disk)) && bc.S().Views() == bc.disk && lh == [b]
      ensures ok ==> k < |others| && full.disk == bc.disk && AllHeld(g, old(bc.disk), others, k, full)
      ensures ok ==> Overtaken(full, i, b, data, mid, others[k], bc.bufs)
    {
      hide State.Ok, State.Views, State.Refs, State.Idle, Apply, AfterBoot, RecoverWrites, Booted, WellFormed, Read;
      ghost var done, d := 0, bc.disk;
      k, i, full, mid := 0, 0, bc.S(), bc.S();
      BootListed(g, bc.S(), b);
      ok, done := RecoverFromLog();
      if !ok { return; }
      ghost var r0 := bc.S().Refs();
      BootRefs(g, d, b, others);
      var n := HoldOthers(others);
      k, full := n, bc.S();
      ReadOther(r0, others, n, b);
      ReadOther(r0, others, n, others[n]);
      UnreferencedIdle(bc.S(), others[n]);
      i, mid := LosesChange(b, data, others[n]);
    }

    /** Processes read blocks and hold them until no buffer is idle. */
    method HoldOthers(others: seq<nat>) returns (n: nat)
      requires bc.Valid() && |others| > NBUF && forall i, j :: 0 <= i < j < |others| ==> others[i] != others[j]
      requires forall i :: 0 <= i < |others| ==> others[i] < |bc.disk| && bc.S().Refs()[others[i]] == 0
      modifies bc`bufs, bc`slot, bc`order
      ensures bc.Valid() && bc.S().Views() == old(bc.S()).Views() && bc.S().Idle() == {}
      ensures n < |others| && bc.S().Refs() == Read(old(bc.S()).Refs(), others, n)
    {
      hide State.Ok, State.Views, State.Refs, State.Idle;
      ghost var r0 := bc.S().Refs();
      IdleBound(bc.S());
      n := 0;
      var found, j := bc.FindIdle();
      while found
        invariant bc.Valid() && n + |bc.S().Idle()| <= NBUF && (found <==> bc.S().Idle() != {})
        invariant bc.S().Views() == old(bc.S()).Views() && bc.S().Refs() == Read(r0, others, n)
        decreases |bc.S().Idle()|
      {
        IdleMeans(bc.S());
        ReadOther(r0, others, n, others[n]);
        var ok;
        ok, j := bc.Bread(others[n]);
        n := n + 1;
        found, j := bc.FindIdle();
      }
    }
  }

  /**
   From s on, buffer i of block b was filled with data, and its count came back to 0, in mid;
   then block c was given the buffer.
   */
  ghost predicate Overtaken(s: State, i: nat, b: nat, data: Block, mid: State, c: nat, bufs: seq<Buf>) {
    && i < |s.bufs| && s.bufs[i].dev == ROOTDEV && s.bufs[i].blockno == b
    && mid == s.(bufs := s.bufs[i := Buf(true, ROOTDEV, b, 0, data)])
    && bufs == mid.bufs[i := Buf(false, ROOTDEV, c, 1, data)]
  }

  /** No buffer is idle, since the first k of `others` were read after boot on disk d, and nothing changed. */
  ghost predicate AllHeld(g: Geometry, d: Disk, others: seq<nat>, k: nat, s: State)
    requires WellFormed(g, d) && k <= |others| && forall i :: 0 <= i < |others| ==> others[i] < |d|
  {
    s.Ok() && s.Idle() == {} && s.Views() == s.disk && s.Refs() == Read(AfterBoot(g, d), others, k)
  }

  /** Reference counts r after the first n of the blocks cs were read and are held. */
  function Read(r: seq<nat>, cs: seq<nat>, n: nat): (t: seq<nat>)
    requires n <= |cs| && forall k :: 0 <= k < |cs| ==> cs[k] < |r|
    ensures |t| == |r|
  {
    if n == 0 then r else var t := Read(r, cs, n - 1); t[cs[n - 1] := t[cs[n - 1]] + 1]
  }

  /** A block that was not read has the count it had. */
  lemma {:induction false} ReadOther(r: seq<nat>, cs: seq<nat>, n: nat, c: nat)
    requires n <= |cs| && (forall k :: 0 <= k < |cs| ==> cs[k] < |r|)
    requires c < |r| && forall k :: 0 <= k < n ==> cs[k] != c
    ensures Read(r, cs, n)[c] == r[c]
  {
    if n > 0 {
      ReadOther(r, cs, n - 1, c);
    }
  }

  lemma BootListed(g: Geometry, s: State, b: nat)
    requires s.Ok() && Booted(s) && WellFormed(g, s.disk) && b in HeaderOf(s.disk[g.start])
    ensures b < |s.disk| && s.Views() == s.disk && !g.InLog(b) && g.size > 1
  {
    BootedState(s);
  }

  lemma BootRefs(g: Geometry, d: Disk, b: nat, others: seq<nat>)
    requires WellFormed(g, d) && b < |d| && b in HeaderOf(d[g.start])
    requires forall i :: 0 <= i < |others| ==> others[i] < |d| && others[i] !in HeaderOf(d[g.start])
    ensures AfterBoot(g, d)[b] == WRAP - 1
    ensures forall i :: 0 <= i < |others| ==> AfterBoot(g, d)[others[i]] == 0
  {
  }

  lemma IdleBound(s: State)
    requires s.Ok()
    ensures |s.Idle()| <= NBUF
  {
    hide UpTo;
    CountSubset(s.Idle(), UpTo(NBUF));
  }

  /** The buffer of an unreferenced block is idle. */
  lemma UnreferencedIdle(s: State, c: nat)
    requires s.Ok() && c < |s.disk| && s.Refs()[c] == 0
    ensures c in s.slot ==> s.slot[c] in s.Idle()
  {
  }

  /** Reference counts after boot recovery on disk d. */
  function AfterBoot(g: Geometry, d: Disk): (r: seq<nat>)
    requires WellFormed(g, d)
    ensures |r| == |d|
  {
    seq(|d|, c => if c in HeaderOf(d[g.start]) then WRAP - 1 else 0)
  }

  /** A cache as binit leaves it. */
  ghost predicate Booted(s: State)
    requires s.Ok()
  {
    && s.slot == map[]
    && forall i :: 0 <= i < NBUF ==> s.bufs[i].refcnt == 0
  }

  lemma BootedState(s: State)
    requires s.Ok() && Booted(s)
    ensures s.Views() == s.disk
    ensures forall c :: 0 <= c < |s.disk| ==> s.Refs()[c] == 0
    ensures |s.Idle()| == NBUF
  {
    hide UpTo;
    assert s.Idle() == UpTo(NBUF);
  }

  function UpTo(n: nat): (s: set<nat>)
    ensures |s| == n && forall i: nat :: i in s <==> i < n
  {
    if n == 0 then {} else UpTo(n - 1) + {n - 1}
  }

  /** More distinct blocks than buffers cannot all be cached. */
  lemma TooManyCached(s: State, bs: seq<int>)
    requires s.Ok() && Distinct(bs)
    requires forall t :: 0 <= t < |bs| ==> 0 <= bs[t] && bs[t] in s.slot
    ensures |bs| <= NBUF
  {
    hide UpTo;
    var used := CacheSlots(s, bs);
    CountSubset(used, UpTo(NBUF));
  }

  lemma {:induction false} CacheSlots(s: State, bs: seq<int>) returns (used: set<nat>)
    requires s.Ok() && Distinct(bs)
    requires forall t :: 0 <= t < |bs| ==> 0 <= bs[t] && bs[t] in s.slot
    ensures |used| == |bs| && used <= UpTo(NBUF)
    ensures forall i :: i in used ==> s.bufs[i].dev == ROOTDEV && s.bufs[i].blockno in bs
    decreases |bs|
  {
    hide UpTo;
    if bs == [] {
      used := {};
    } else {
      var k := |bs| - 1;
      used := CacheSlots(s, bs[..k]);
      var b: nat := bs[k];
      assert s.slot[b] !in used;
      used := used + {s.slot[b]};
    }
  }

  /** What boot needs of its first state: recovery's writes are Finish, and the counts have room. */
  lemma BootPlan(g: Geometry, s: State)
    requires s.Ok() && Booted(s) && WellFormed(g, s.disk)
    ensures RecoverWrites(g, s.disk) == Finish(g, HeaderOf(s.disk[g.start]), s.disk)
    ensures LogClean(g, s) && Roomy(g, s, HeaderOf(s.disk[g.start]))
  {
    BootedState(s);
  }

  lemma BootPlanStill(g: Geometry, s: State, t: State, lh: seq<int>)
    requires s.Ok() && t.Ok() && s.Refs() == t.Refs() && s.Views() == t.Views() && s.disk == t.disk
    requires LogClean(g, s) && Roomy(g, s, lh)
    ensures LogClean(g, t) && Roomy(g, t, lh)
  {
    RoomySame(g, s, t, lh);
  }

  lemma AfterBootIs(g: Geometry, d: Disk, r: seq<nat>)
    requires WellFormed(g, d) && |r| == |d| && forall c :: 0 <= c < |r| ==> r[c] == 0
    ensures Unpinned(r, HeaderOf(d[g.start])) == AfterBoot(g, d)
  {
    UnpinnedAt(r, HeaderOf(d[g.start]));
  }

  lemma BootFits(g: Geometry, d: Disk, s: State)
    requires WellFormed(g, d) && s.Ok() && s.Refs() == AfterBoot(g, d) && g.start in s.slot
    ensures |HeaderOf(d[g.start])| < NBUF
  {
    var h := HeaderOf(d[g.start]);
    forall t | 0 <= t < |h|
      ensures 0 <= h[t] && h[t] in s.slot && h[t] != g.start
    {
      assert s.Refs()[h[t]] > 0 && g.InLog(g.start);
    }
    TooManyCached(s, h + [g.start]);
  }

  /** CommitPoint with the header block found in v. */
  function Point(g: Geometry, lh: seq<int>, v: Disk): (ws: seq<Write>)
    requires TxOk(g, |v|, lh) && g.start < |v| && |v[g.start]| == WORDS
    ensures |ws| == |lh| + 1
  {
    CommitPoint(g, lh, v, v[g.start])
  }

  /** CommitWrites with the header block found in v. */
  function AllWrites(g: Geometry, lh: seq<int>, v: Disk): seq<Write>
    requires TxOk(g, |v|, lh) && g.start < |v| && |v[g.start]| == WORDS
  {
    CommitWrites(g, lh, v, v[g.start])
  }

  lemma PointParts(g: Geometry, lh: seq<int>, v: Disk, d: Disk)
    requires TxOk(g, |v|, lh) && 1 <= g.size && g.start + g.size <= |v| && |v[g.start]| == WORDS && |d| == |v|
    ensures var ws := LogWrites(g, lh, v);
            && Point(g, lh, v) == ws + HeadWrite(g, lh, v)
            && ws[..|lh|] == ws
            && (forall k :: 0 <= k <= |lh| ==> Point(g, lh, v)[..k] == ws[..k])
            && Point(g, lh, v)[..|lh| + 1] == Point(g, lh, v)
            && InRange(v, ws) && InRange(d, ws)
            && Apply(v, ws)[g.start] == v[g.start]
            && HeadWrite(g, lh, Apply(v, ws)) == HeadWrite(g, lh, v)
  {
    var ws := LogWrites(g, lh, v);
    LogWritesEffect(g, lh, v, v, |lh|);
    assert ws[..|lh|] == ws;
  }

  /** After the commit point the rest of commit is what recovery would do. */
  lemma CommitParts(g: Geometry, lh: seq<int>, v: Disk, d: Disk)
    requires TxOk(g, |v|, lh) && 1 <= g.size && g.start + g.size <= |v| && |v[g.start]| == WORDS && |d| == |v|
    requires forall c :: g.InLog(c) ==> v[c] == d[c]
    ensures lh == [] ==> AllWrites(g, lh, v) == []
    ensures lh != [] ==> SplitCommit(g, lh, v, d)
  {
    if lh != [] {
      PointEffect(g, lh, v, v);
      PointAgrees(g, lh, v, d);
      RestIsFinish(g, lh, v, Apply(v, Point(g, lh, v)));
    }
  }

  lemma PointAgrees(g: Geometry, lh: seq<int>, v: Disk, d: Disk)
    requires TxOk(g, |v|, lh) && 1 <= g.size && g.start + g.size <= |v| && |v[g.start]| == WORDS && |d| == |v|
    requires forall c :: g.InLog(c) ==> v[c] == d[c]
    ensures var p := Point(g, lh, v);
            InRange(v, p) && InRange(d, p) && forall c :: g.InLog(c) ==> Apply(v, p)[c] == Apply(d, p)[c]
  {
    hide Point, Apply, Distinct, PutHeader;
    var p := Point(g, lh, v);
    PointEffect(g, lh, v, v);
    PointEffect(g, lh, v, d);
    forall c | g.InLog(c)
      ensures Apply(v, p)[c] == Apply(d, p)[c]
    {
      if g.start < c <= g.start + |lh| {
        var i := c - g.start - 1;
        assert Apply(v, p)[g.start + 1 + i] == v[lh[i]];
      }
    }
  }

  ghost predicate SplitCommit(g: Geometry, lh: seq<int>, v: Disk, d: Disk)
    requires TxOk(g, |v|, lh) && 1 <= g.size && g.start + g.size <= |v| && |v[g.start]| == WORDS && |d| == |v|
  {
    var p := Point(g, lh, v);
    && InRange(v, p) && InRange(d, p)
    && |Apply(v, p)[g.start]| == WORDS
    && (forall c :: g.InLog(c) ==> Apply(v, p)[c] == Apply(d, p)[c])
    && Prefixes(AllWrites(g, lh, v), p, Finish(g, lh, Apply(v, p)))
  }

  /** ws is p then rest, and so is every prefix of it. */
  ghost predicate Prefixes(ws: seq<Write>, p: seq<Write>, rest: seq<Write>) {
    && ws == p + rest
    && (forall k :: 0 <= k <= |p| ==> ws[..k] == p[..k])
    && (forall k :: 0 <= k <= |rest| ==> ws[..|p| + k] == p + rest[..k])
  }

  lemma RestIsFinish(g: Geometry, lh: seq<int>, v: Disk, v1: Disk)
    requires TxOk(g, |v|, lh) && lh != [] && 1 <= g.size && g.start + g.size <= |v| && |v[g.start]| == WORDS &&
               |v1| == |v|
    requires v1[g.start] == PutHeader(v[g.start], lh)
    requires forall i :: 0 <= i < |lh| ==> v1[g.start + 1 + i] == v[lh[i]]
    ensures Prefixes(AllWrites(g, lh, v), Point(g, lh, v), Finish(g, lh, v1))
  {
    hide PutHeader, CommitPoint, Distinct;
    assert InstallWrites(g, lh, v1) == HomeWrites(g, lh, v);
  }

  lemma PointEffect(g: Geometry, lh: seq<int>, v: Disk, d: Disk)
    requires TxOk(g, |v|, lh) && 1 <= g.size && g.start + g.size <= |v| && |v[g.start]| == WORDS && |d| == |v|
    ensures InRange(d, Point(g, lh, v))
    ensures Apply(d, Point(g, lh, v))[g.start] == PutHeader(v[g.start], lh)
    ensures forall i :: 0 <= i < |lh| ==> Apply(d, Point(g, lh, v))[g.start + 1 + i] == v[lh[i]]
    ensures forall b :: 0 <= b < |d| && !(g.start <= b <= g.start + |lh|) ==> Apply(d, Point(g, lh, v))[b] == d[b]
  {
    hide PutHeader;
    var ws := LogWrites(g, lh, v);
    LogWritesEffect(g, lh, v, d, |lh|);
    assert ws[..|lh|] == ws;
    PointParts(g, lh, v, d);
    OneWrite(Apply(d, ws), g.start, PutHeader(v[g.start], lh));
    ApplyConcat(d, ws, HeadWrite(g, lh, v));
    var e := Apply(d, Point(g, lh, v));
    assert e == Apply(d, ws)[g.start := PutHeader(v[g.start], lh)];
    forall i | 0 <= i < |lh|
      ensures e[g.start + 1 + i] == v[lh[i]]
    {
      assert Apply(d, ws)[g.start + 1 + i] == v[lh[i]];
    }
  }

  /** write_head's one write. */
  function HeadWrite(g: Geometry, lh: seq<int>, v: Disk): (ws: seq<Write>)
    requires g.start < |v| && |v[g.start]| == WORDS && |lh| <= LOGSIZE
    ensures |ws| == 1
  {
    [Write(g.start, PutHeader(v[g.start], lh))]
  }

  lemma OneWrite(d: Disk, b: nat, data: Block)
    requires b < |d|
    ensures InRange(d, [Write(b, data)]) && Apply(d, [Write(b, data)]) == d[b := data]
  {
    assert [Write(b, data)][..0] == [];
  }

  lemma FinishParts(g: Geometry, lh: seq<int>, v: Disk, d: Disk)
    requires TxOk(g, |v|, lh) && 1 <= g.size && g.start + g.size <= |v| && |v[g.start]| == WORDS && |d| == |v|
    ensures var ws := InstallWrites(g, lh, v);
            && Finish(g, lh, v) == ws + HeadWrite(g, [], v)
            && ws[..|lh|] == ws
            && (forall k :: 0 <= k <= |lh| ==> Finish(g, lh, v)[..k] == ws[..k])
            && Finish(g, lh, v)[..|lh| + 1] == Finish(g, lh, v)
            && InRange(v, ws) && InRange(d, ws)
            && Apply(v, ws)[g.start] == v[g.start]
            && HeadWrite(g, [], Apply(v, ws)) == HeadWrite(g, [], v)
  {
    var ws := InstallWrites(g, lh, v);
    HomeWritesEffect(lh, ws, v, |lh|);
    assert ws[..|lh|] == ws;
    assert g.InLog(g.start);
  }

  /** What follows once a header listing lh stands: install, then clear the header. */
  function Finish(g: Geometry, lh: seq<int>, v: Disk): (ws: seq<Write>)
    requires TxOk(g, |v|, lh) && 1 <= g.size && g.start + g.size <= |v| && |v[g.start]| == WORDS
    ensures |ws| == |lh| + 1
  {
    InstallWrites(g, lh, v) + HeadWrite(g, [], v)
  }

  /** Counts after one bunpin of every block in hs. */
  function Unpinned(r: seq<nat>, hs: seq<int>): (u: seq<nat>)
    requires forall i :: 0 <= i < |hs| ==> 0 <= hs[i] < |r|
    ensures |u| == |r|
  {
    if hs == [] then r
    else
      var u := Unpinned(r, hs[..|hs| - 1]);
      u[hs[|hs| - 1] := Dec(u[hs[|hs| - 1]])]
  }

  lemma UnpinNone(r: seq<nat>)
    ensures Unpinned(r, []) == r
  {
  }

  lemma {:induction false} UnpinnedAt(r: seq<nat>, hs: seq<int>)
    requires Distinct(hs)
    requires forall i :: 0 <= i < |hs| ==> 0 <= hs[i] < |r|
    ensures forall c :: 0 <= c < |r| ==> Unpinned(r, hs)[c] == if c in hs then Dec(r[c]) else r[c]
  {
    if hs != [] {
      var k := |hs| - 1;
      UnpinnedAt(r, hs[..k]);
      assert hs == hs[..k] + [hs[k]];
    }
  }

  lemma HeadNotUnpinned(g: Geometry, lh: seq<int>, r: seq<nat>)
    requires TxOk(g, |r|, lh) && 1 <= g.size && g.start + g.size <= |r|
    ensures Unpinned(r, lh)[g.start] == r[g.start] && lh[..|lh|] == lh
  {
    UnpinnedAt(r, lh);
    assert g.InLog(g.start);
  }

  lemma UnpinRound(g: Geometry, lh: seq<int>, r: seq<nat>, tail: nat)
    requires TxOk(g, |r|, lh) && g.start + g.size <= |r| && tail < |lh|
    ensures Unpinned(r, lh[..tail])[lh[tail]] == r[lh[tail]]
    ensures Unpinned(r, lh[..tail])[g.start + 1 + tail] == r[g.start + 1 + tail]
    ensures Unpinned(r, lh[..tail + 1]) == Unpinned(r, lh[..tail])[lh[tail] := Dec(r[lh[tail]])]
  {
    UnpinnedAt(r, lh[..tail]);
    assert lh[..tail + 1][..tail] == lh[..tail];
    assert g.InLog(g.start + 1 + tail);
  }

  lemma HomeRound(g: Geometry, lh: seq<int>, d: Disk, v: Disk, tail: nat)
    requires TxOk(g, |v|, lh) && |d| == |v| && g.start + g.size <= |v| && tail < |lh|
    requires forall c :: g.InLog(c) ==> v[c] == d[c]
    ensures var ws := InstallWrites(g, lh, v);
            && ws[tail] == Write(lh[tail], v[g.start + 1 + tail])
            && HomeRoundOn(g, ws, d, tail) && HomeRoundOn(g, ws, v, tail)
            && v[g.start + 1 + tail] == d[g.start + 1 + tail]
  {
    assert g.InLog(g.start + 1 + tail);
    HomeRoundHolds(g, lh, InstallWrites(g, lh, v), d, tail);
    HomeRoundHolds(g, lh, InstallWrites(g, lh, v), v, tail);
  }

  predicate HomeRoundOn(g: Geometry, ws: seq<Write>, d: Disk, tail: nat) {
    && tail < |ws| && InRange(d, ws[..tail]) && NextWrite(ws, d, tail)
    && g.start + 1 + tail < |d|
    && Apply(d, ws[..tail])[g.start + 1 + tail] == d[g.start + 1 + tail]
  }

  lemma HomeRoundHolds(g: Geometry, lh: seq<int>, ws: seq<Write>, d: Disk, tail: nat)
    requires TxOk(g, |d|, lh) && g.start + g.size <= |d| && tail < |lh| == |ws|
    requires forall i :: 0 <= i < |lh| ==> ws[i].blockno == lh[i]
    ensures HomeRoundOn(g, ws, d, tail)
  {
    HomeWritesEffect(lh, ws, d, tail);
    assert g.InLog(g.start + 1 + tail);
    assert g.start + 1 + tail !in lh[..tail];
    WriteRound(ws, d, tail);
  }

  lemma NoWrites(ws: seq<Write>, d: Disk, v: Disk)
    ensures InRange(d, ws[..0]) && InRange(v, ws[..0])
    ensures Apply(d, ws[..0]) == d && Apply(v, ws[..0]) == v
  {
  }

  lemma LogRound(g: Geometry, lh: seq<int>, d: Disk, v: Disk, tail: nat)
    requires TxOk(g, |v|, lh) && |d| == |v| && g.start + g.size <= |v| && tail < |lh|
    ensures var ws := LogWrites(g, lh, v);
            && ws[tail] == Write(g.start + 1 + tail, v[lh[tail]])
            && InRange(d, ws[..tail]) && InRange(v, ws[..tail])
            && Apply(v, ws[..tail])[lh[tail]] == v[lh[tail]]
            && NextWrite(ws, d, tail) && NextWrite(ws, v, tail)
  {
    LogWritesEffect(g, lh, v, v, tail);
    LogWritesEffect(g, lh, v, d, tail);
    assert g.InLog(g.start + 1 + tail);
    WriteRound(LogWrites(g, lh, v), d, tail);
    WriteRound(LogWrites(g, lh, v), v, tail);
  }

  /** One more write extends the prefix by its one block update. */
  predicate NextWrite(ws: seq<Write>, d: Disk, k: nat)
    requires k < |ws| && InRange(d, ws[..k])
  {
    && InRange(d, ws[..k + 1]) && ws[..k + 1] == ws[..k] + [ws[k]]
    && ws[k].blockno < |d|
    && Apply(d, ws[..k + 1]) == Apply(d, ws[..k])[ws[k].blockno := ws[k].data]
  }

  lemma WriteRound(ws: seq<Write>, d: Disk, k: nat)
    requires k < |ws| && InRange(d, ws[..k]) && ws[k].blockno < |d|
    ensures NextWrite(ws, d, k)
  {
    assert ws[..k + 1][..k] == ws[..k];
  }

  /** The idle set once buffer i's count has become r. */
  function Freed(idle: set<nat>, i: nat, r: nat): set<nat> {
    if r == 0 then idle + {i} else idle - {i}
  }

  lemma IdleAfter(idle: set<nat>, i: nat, j: nat, ri: nat, rj: nat)
    requires i != j && (i in idle ==> ri == 0)
    ensures idle - {j} <= Freed(Freed(idle - {i}, i, ri), j, rj)
    ensures j !in idle ==> idle <= Freed(Freed(idle - {i}, i, ri), j, rj)
    ensures |Freed(Freed(idle - {i}, i, ri), j, rj)| >= |idle| - 1
  {
    RemoveOne(idle, j);
    CountSubset(idle - {j}, Freed(Freed(idle - {i}, i, ri), j, rj));
  }

  lemma PutBack(r: seq<nat>, l: nat, d: nat, x: nat)
    requires l < |r| && d < |r|
    ensures r[l := r[l] + 1][l := r[l]][d := x] == r[d := x]
  {
  }

  lemma RemoveOne(s: set<nat>, x: nat)
    ensures |s - {x}| >= |s| - 1
  {
    if x in s {
      assert s == (s - {x}) + {x};
    } else {
      assert s - {x} == s;
    }
  }

}
