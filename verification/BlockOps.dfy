/**
 What a file-system operation does with blocks, in the order kernel/log.c:228-236 asks for:
 bread, change the data, log_write, brelse; and commit when no operation is running.
 Cache and disk together act as one plain block map, and a crash during commit keeps it
 all or loses all of the uncommitted changes.
 */
module BlockOps {
  import opened Params
  import opened DiskLog
  import opened BufferCache
  import opened WriteAheadLog

  /**
   The accounting between calls: a block's buffer is referenced once per user and once
   more while it is logged, and the cache is newer than the disk only for logged blocks
   and for blocks whose user has changed them and not called log_write yet.
   */
  ghost predicate Accounted(g: Geometry, s: State, lh: seq<int>, users: seq<nat>, unlogged: set<nat>)
    requires s.Ok()
  {
    && Holds(g, s.disk, s.disk) && TxOk(g, |s.disk|, lh)
    && |users| == |s.disk|
    && (forall c :: 0 <= c < |users| ==> users[c] <= NPROC)
    && (forall c :: 0 <= c < |users| ==> s.Refs()[c] == users[c] + if c in lh then 1 else 0)
    && (forall b :: b in unlogged ==> b < |users| && users[b] > 0 && !g.InLog(b))
    && (forall c :: 0 <= c < |users| && c !in lh && c !in unlogged ==> s.Views()[c] == s.disk[c])
  }

  lemma Pinning(g: Geometry, s: State, lh: seq<int>, users: seq<nat>, unlogged: set<nat>)
    requires s.Ok() && Accounted(g, s, lh, users, unlogged)
    ensures Pinned(s, lh) && Roomy(g, s, lh)
    ensures unlogged == {} ==> LogClean(g, s)
    ensures |s.Views()[g.start]| == WORDS && s.Refs()[g.start] + 1 < WRAP && s.Views()[g.start] == s.disk[g.start]
  {
    assert g.InLog(g.start);
  }

  /** After a boot that finished recovery the accounting holds exactly if there was nothing to recover. */
  lemma AccountedAfterBoot(g: Geometry, s: State, d: Disk)
    requires WellFormed(g, d) && s.Ok() && s.disk == Recovered(g, d) && s.Views() == s.disk
    requires s.Refs() == AfterBoot(g, d)
    ensures Accounted(g, s, [], seq(|d|, c => 0), {}) <==> HeaderOf(d[g.start]) == []
  {
    RecoveryInstalls(g, d, []);
    assert AfterCrashes(g, d, []) == d;
    var h := HeaderOf(d[g.start]);
    if h != [] {
      assert s.Refs()[h[0]] == WRAP - 1;
    }
  }

  /** Boot: what Blocks starts from is there exactly if the log listed nothing. */
  method Boot(log: Log) returns (ok: bool)
    requires log.bc.Valid() && Booted(log.bc.S()) && WellFormed(log.g, log.bc.disk)
    modifies log, log.bc
    ensures ok <==> |HeaderOf(old(log.bc.disk)[log.g.start])| < NBUF
    ensures ok ==> log.Ready() && log.lh == [] && |log.bc.disk| == |old(log.bc.disk)|
    ensures ok ==>
              (Accounted(log.g, log.bc.S(), log.lh, seq(|log.bc.disk|, c => 0), {}) <==>
                 HeaderOf(old(log.bc.disk)[log.g.start]) == [])
  {
    hide State.Ok, State.Views, State.Refs, State.Idle, Apply, AfterBoot, RecoverWrites, Accounted, WellFormed;
    ghost var d := log.bc.disk;
    BootedState(log.bc.S());
    ghost var done;
    ok, done := log.RecoverFromLog();
    if ok { AccountedAfterBoot(log.g, log.bc.S(), d); }
  }

  /** A last reference goes only from a buffer that agrees with the disk. */
  lemma Droppable(g: Geometry, s: State, lh: seq<int>, users: seq<nat>, unlogged: set<nat>, i: nat, b: nat)
    requires s.Ok() && Accounted(g, s, lh, users, unlogged)
    requires s.Holding(i, b) && users[b] > 0 && b !in unlogged
    ensures s.MayDrop(i) && s.bufs[i].refcnt == s.Refs()[b] == users[b] + if b in lh then 1 else 0
  {
    HitView(s, i, b);
  }

  class Blocks {
    const log: Log
    ghost var users: seq<nat>     // per block: bread without brelse yet
    ghost var unlogged: set<nat>  // changed by its user, log_write not called yet

    ghost predicate Inv()
      reads this, log, log.bc
    {
      log.Ready() && Accounted(log.g, log.bc.S(), log.lh, users, unlogged)
    }

    /** The plain block map that cache and disk stand for. */
    ghost function Map(): Disk
      requires Inv()
      reads this, log, log.bc
    {
      log.bc.S().Views()
    }

    /** After boot on an empty log nothing is referenced, and the map is the disk. */
    constructor (log: Log)
      requires log.Ready() && Accounted(log.g, log.bc.S(), log.lh, seq(|log.bc.disk|, c => 0), {})
      ensures Inv() && this.log == log
    {
      this.log := log;
      users := seq(|log.bc.disk|, c => 0);
      unlogged := {};
    }

    /** bread by a file-system operation. */
    method Read(b: nat) returns (ok: bool, i: nat)
      requires Inv() && b < |log.bc.disk| && !log.g.InLog(b) && users[b] < NPROC
      modifies this, log.bc
      ensures Inv() && Map() == old(Map()) && unlogged == old(unlogged)
      ensures old(users)[b] > 0 || b in log.lh || old(log.bc.S()).Idle() != {} ==> ok
      ensures users == if ok then old(users)[b := old(users)[b] + 1] else old(users)
      ensures ok ==> log.bc.S().Holding(i, b) && log.bc.bufs[i].data == Map()[b]
    {
      hide State.Ok, State.Views, State.Refs, State.Idle;
      ok, i := log.bc.Bread(b);
      if ok {
        users := users[b := users[b] + 1];
      }
    }

    /** The user of a buffer changes its data in place. */
    method Change(i: nat, b: nat, data: Block)
      requires Inv() && log.bc.S().Holding(i, b) && users[b] > 0 && !log.g.InLog(b)
      modifies this, log.bc
      ensures Inv() && Map() == old(Map())[b := data]
      ensures users == old(users) && unlogged == old(unlogged) + {b}
      ensures log.bc.S().Holding(i, b)
    {
      hide State.Ok, State.Views, State.Refs, State.Idle;
      log.bc.SetData(i, b, data);
      unlogged := unlogged + {b};
    }

    /** brelse. The user has called log_write if it changed the data. */
    method Release(i: nat, b: nat)
      requires Inv() && log.bc.S().Holding(i, b) && users[b] > 0 && b !in unlogged
      modifies this, log.bc
      ensures Inv() && Map() == old(Map())
      ensures users == old(users)[b := old(users)[b] - 1] && unlogged == old(unlogged)
    {
      hide State.Ok, State.Views, State.Refs, State.Idle;
      Droppable(log.g, log.bc.S(), log.lh, users, unlogged, i, b);
      log.bc.Brelse(i);
      users := users[b := users[b] - 1];
    }

    /** log_write: the user is done changing block b, which is logged from now on. */
    method LogWrite(i: nat, b: nat, outstanding: int) returns (ok: bool)
      requires Inv() && log.bc.S().Holding(i, b) && users[b] > 0 && !log.g.InLog(b)
      modifies this, log, log.bc
      ensures ok <==> |old(log.lh)| < LOGSIZE && |old(log.lh)| < log.g.size - 1 && outstanding >= 1
      ensures Inv() && Map() == old(Map()) && users == old(users)
      ensures log.lh == if ok && b !in old(log.lh) then old(log.lh) + [b] else old(log.lh)
      ensures unlogged == if ok then old(unlogged) - {b} else old(unlogged)
      ensures log.bc.S().Holding(i, b)
    {
      hide State.Ok, State.Views, State.Refs, State.Idle, Holds;
      RefOf(log.bc.S(), i, b);
      ok := log.LogWrite(i, b, outstanding);
      if ok {
        unlogged := unlogged - {b};
      }
    }

    /**
     commit, called while no operation runs. Stopped after any number of block writes, and
     after any number of failed recoveries, recovery brings back every home block as it was
     on disk before, or every one as in the map, the latter once the header was written.
     */
    method Commit() returns (ok: bool, ghost done: nat)
      requires Inv() && unlogged == {}
      modifies this, log, log.bc
      ensures old(log.bc.S()).Idle() != {} ==> ok
      ensures WellFormed(log.g, log.bc.disk)
      ensures forall ks: seq<nat> ::
                Holds(log.g, Recovered(log.g, AfterCrashes(log.g, log.bc.disk, ks)),
                      if done <= |old(log.lh)| then old(log.bc.disk) else old(Map()))
      ensures ok ==> Inv() && log.lh == [] && users == old(users) && unlogged == {}
      ensures ok ==> |Map()| == |old(Map())| && forall c :: 0 <= c < |Map()| && !log.g.InLog(c) ==>
                Map()[c] == old(Map())[c]
    {
      hide State.Ok, State.Views, State.Refs, State.Idle, Apply, AllWrites, Holds, Unpinned, TxOk;
      ghost var s0, h := log.bc.S(), log.lh;
      Pinning(log.g, s0, h, users, {});
      ok, done := log.Commit();
      CommitStopped(log.g, s0, h, users, log.bc.disk, done);
      if ok {
        CommitDone(log.g, s0, h, users, log.bc.S());
      }
    }
  }

  lemma RefOf(s: State, i: nat, b: nat)
    requires s.Ok() && s.Holding(i, b)
    ensures s.bufs[i].refcnt == s.Refs()[b]
  {
  }

  lemma CommitStopped(g: Geometry, s: State, lh: seq<int>, users: seq<nat>, d: Disk, done: nat)
    requires s.Ok() && Accounted(g, s, lh, users, {}) && |s.Views()[g.start]| == WORDS
    requires done <= |AllWrites(g, lh, s.Views())| && InRange(s.disk, AllWrites(g, lh, s.Views())[..done])
    requires d == Apply(s.disk, AllWrites(g, lh, s.Views())[..done])
    ensures WellFormed(g, d)
    ensures forall ks: seq<nat> ::
              Holds(g, Recovered(g, AfterCrashes(g, d, ks)), if done <= |lh| then s.disk else s.Views())
  {
    Pinning(g, s, lh, users, {});
    StoppedMeans(g, s, lh, users, d, done);
    RecoversTo(g, d, if done <= |lh| then s.disk else s.Views());
  }

  lemma StoppedMeans(g: Geometry, s: State, lh: seq<int>, users: seq<nat>, d: Disk, done: nat)
    requires s.Ok() && Accounted(g, s, lh, users, {}) && |s.Views()[g.start]| == WORDS
    requires done <= |AllWrites(g, lh, s.Views())| && InRange(s.disk, AllWrites(g, lh, s.Views())[..done])
    requires d == Apply(s.disk, AllWrites(g, lh, s.Views())[..done])
    ensures Means(g, d, if done <= |lh| then s.disk else s.Views())
    ensures lh != [] && done == |AllWrites(g, lh, s.Views())| ==> Holds(g, d, s.Views())
  {
    hide State.Ok, State.Views, State.Refs, PutHeader, CommitPoint, HomeWrites, Means, Logical;
    Pinning(g, s, lh, users, {});
    var ws := AllWrites(g, lh, s.Views());
    if lh == [] {
      assert ws[..done] == [];
      HoldsMeans(g, d);
    } else {
      CommitCrash(g, lh, s.disk, s.Views(), done);
      assert done == |ws| ==> ws[..done] == ws;
    }
  }

  lemma HoldsMeans(g: Geometry, d: Disk)
    requires Holds(g, d, d)
    ensures Means(g, d, d)
  {
  }

  lemma RecoversTo(g: Geometry, d: Disk, home: Disk)
    requires Means(g, d, home)
    ensures forall ks: seq<nat> :: Holds(g, Recovered(g, AfterCrashes(g, d, ks)), home)
  {
    forall ks: seq<nat>
      ensures Holds(g, Recovered(g, AfterCrashes(g, d, ks)), home)
    {
      RecoveryInstalls(g, d, ks);
    }
  }

  lemma {:induction false} SameWrites(d: Disk, v: Disk, ws: seq<Write>, b: nat)
    requires |d| == |v| && InRange(d, ws) && b < |d| && d[b] == v[b]
    ensures Apply(d, ws)[b] == Apply(v, ws)[b]
  {
    if ws != [] {
      SameWrites(d, v, ws[..|ws| - 1], b);
    }
  }

  /** After a whole commit, disk and cache agree everywhere, and home blocks read as before. */
  lemma CommittedContents(g: Geometry, lh: seq<int>, d: Disk, v: Disk)
    requires lh != [] && CommitReady(g, lh, d, v)
    requires forall c :: 0 <= c < |d| && c !in lh ==> v[c] == d[c]
    ensures InRange(d, AllWrites(g, lh, v)) && InRange(v, AllWrites(g, lh, v))
    ensures var ws := AllWrites(g, lh, v);
            && Holds(g, Apply(d, ws), v) && Holds(g, Apply(v, ws), v)
            && Apply(d, ws) == Apply(v, ws)
  {
    hide CommitWrites, Logical;
    assert g.InLog(g.start);
    CommitCrash(g, lh, d, v, 2 * |lh| + 2);
    CommitWritesLength(g, lh, v);
    HoldsItself(g, d, v);
    CommitCrash(g, lh, v, v, 2 * |lh| + 2);
    var ws := AllWrites(g, lh, v);
    forall c | 0 <= c < |d|
      ensures Apply(d, ws)[c] == Apply(v, ws)[c]
    {
      if g.InLog(c) || c !in lh {
        SameWrites(d, v, ws, c);
      }
    }
  }

  lemma CommitWritesLength(g: Geometry, lh: seq<int>, v: Disk)
    requires lh != [] && TxOk(g, |v|, lh) && g.start < |v| && |v[g.start]| == WORDS
    ensures |AllWrites(g, lh, v)| == 2 * |lh| + 2
  {
  }

  lemma HoldsItself(g: Geometry, d: Disk, v: Disk)
    requires WellFormed(g, d) && HeaderOf(d[g.start]) == [] && |v| == |d| && v[g.start] == d[g.start]
    ensures Holds(g, v, v)
  {
  }

  lemma CommitDone(g: Geometry, s: State, lh: seq<int>, users: seq<nat>, t: State)
    requires s.Ok() && t.Ok() && Accounted(g, s, lh, users, {}) && |s.Views()[g.start]| == WORDS
    requires InRange(s.disk, AllWrites(g, lh, s.Views()))
    requires t.disk == Apply(s.disk, AllWrites(g, lh, s.Views()))
    requires t.Views() == Apply(s.Views(), AllWrites(g, lh, s.Views()))
    requires t.Refs() == Unpinned(s.Refs(), lh)
    ensures Accounted(g, t, [], users, {})
    ensures |t.disk| == |s.disk|
    ensures forall c :: 0 <= c < |s.disk| && !g.InLog(c) ==> t.Views()[c] == s.Views()[c]
  {
    hide State.Ok, State.Views, State.Refs, Apply, AllWrites, Holds;
    CommitDoneContents(g, s, lh, users);
    UnpinnedAt(s.Refs(), lh);
    EmptyTx(g, |s.disk|);
  }

  lemma EmptyTx(g: Geometry, n: nat)
    requires 1 <= g.size
    ensures TxOk(g, n, [])
  {
  }

  lemma CommitDoneContents(g: Geometry, s: State, lh: seq<int>, users: seq<nat>)
    requires s.Ok() && Accounted(g, s, lh, users, {}) && |s.Views()[g.start]| == WORDS
    ensures var ws := AllWrites(g, lh, s.Views());
            && InRange(s.disk, ws)
            && Holds(g, Apply(s.disk, ws), Apply(s.disk, ws)) && 1 <= g.size
            && Apply(s.disk, ws) == Apply(s.Views(), ws)
            && forall c :: 0 <= c < |s.disk| && !g.InLog(c) ==> Apply(s.Views(), ws)[c] == s.Views()[c]
  {
    hide State.Ok, State.Views, State.Refs, Apply, Logical;
    var ws := AllWrites(g, lh, s.Views());
    if lh == [] {
      assert ws == [] && ws[..0] == [];
      NoWrites(ws, s.disk, s.Views());
      assert s.Views() == s.disk;
    } else {
      Pinning(g, s, lh, users, {});
      CommittedContents(g, lh, s.disk, s.Views());
      HoldsItself(g, Apply(s.disk, ws), Apply(s.disk, ws));
    }
  }
}
