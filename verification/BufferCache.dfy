/**
 The block buffer cache of kernel/bio.c. `bufs` is bcache.buf and `order` the bcache list,
 as buffer indices from head.next (most recent) to head.prev. Only ROOTDEV is ever read.
 Reference counts are 32-bit and wrap as in C.
 */
module BufferCache {
  import opened Params
  import opened DiskLog

  const WRAP := 0x1_0000_0000

  datatype Buf = Buf(valid: bool, dev: nat, blockno: nat, refcnt: nat, data: Block)

  /** refcnt-- on an unsigned int. */
  function Dec(refcnt: nat): nat {
    if refcnt == 0 then WRAP - 1 else refcnt - 1
  }

  /** refcnt++ on an unsigned int. */
  function Inc(refcnt: nat): nat {
    if refcnt == WRAP - 1 then 0 else refcnt + 1
  }

  /** Both are modulo 2^32. */
  lemma Modulo(refcnt: nat)
    requires refcnt < 0x1_0000_0000
    ensures Dec(refcnt) == (refcnt + 0xFFFF_FFFF) % 0x1_0000_0000 && Inc(refcnt) == (refcnt + 1) % 0x1_0000_0000
  {
  }

  /** Unlink element k and put it first: what brelse does to the list. */
  function MoveToFront(order: seq<nat>, k: nat): seq<nat>
    requires k < |order|
  {
    [order[k]] + order[..k] + order[k + 1..]
  }

  /** Element k came first, and the others keep their order. */
  lemma FrontIs(order: seq<nat>, k: nat)
    requires k < |order|
    ensures var r := MoveToFront(order, k);
            r[0] == order[k] && r[1..] == order[..k] + order[k + 1..] && |r| == |order|
  {
  }

  /** order is was with i taken from some place and put first. */
  ghost predicate WentFirst(was: seq<nat>, order: seq<nat>, i: nat) {
    && |order| == |was| > 0 && order[0] == i
    && exists k :: 0 <= k < |was| && was[k] == i && order[1..] == was[..k] + was[k + 1..]
  }

  /** Disk and buffers; slot says which buffer caches a block, if any. */
  datatype State = State(disk: Disk, bufs: seq<Buf>, slot: map<nat, nat>) {

    /** One buffer per cached block, and every recyclable buffer agrees with the disk. */
    ghost predicate Ok() {
      && Mapped()
      && (forall i :: 0 <= i < NBUF && bufs[i].dev == ROOTDEV && bufs[i].valid && bufs[i].refcnt == 0 ==>
            bufs[i].data == disk[bufs[i].blockno])
    }

    /** One buffer per cached block. */
    ghost predicate Mapped() {
      && |bufs| == NBUF
      && (forall b :: b in slot ==> slot[b] < NBUF && bufs[slot[b]].dev == ROOTDEV && bufs[slot[b]].blockno == b)
      && (forall i :: 0 <= i < NBUF && bufs[i].dev == ROOTDEV ==>
            bufs[i].blockno < |disk| && bufs[i].blockno in slot && slot[bufs[i].blockno] == i)
      && (forall i :: 0 <= i < NBUF ==> bufs[i].refcnt < WRAP)
    }

    /** What a reader of block b gets: the cached data if there is any, else the disk block. */
    ghost function View(b: nat): Block
      requires Ok() && b < |disk|
    {
      if b in slot && bufs[slot[b]].valid then bufs[slot[b]].data else disk[b]
    }

    /** The cache-over-disk view of all blocks, as one plain block map. */
    ghost function Views(): (v: Disk)
      requires Ok()
      ensures |v| == |disk|
    {
      seq(|disk|, b requires 0 <= b < |disk| && Ok() => View(b))
    }

    /** The reference count of every block's buffer; 0 if it has none. */
    ghost function Refs(): (r: seq<nat>)
      requires Ok()
      ensures |r| == |disk|
    {
      seq(|disk|, b requires 0 <= b < |disk| && Ok() => if b in slot then bufs[slot[b]].refcnt else 0)
    }

    /** Indices of the buffers bget may recycle. */
    ghost function Idle(): set<nat>
      requires |bufs| == NBUF
    {
      set i | 0 <= i < NBUF && bufs[i].refcnt == 0
    }

    /** Buffer i is referenced and holds block b's data. */
    ghost predicate Holding(i: nat, b: nat) {
      && i < |bufs| && bufs[i].dev == ROOTDEV && bufs[i].blockno == b && bufs[i].valid && bufs[i].refcnt > 0
      && b < |disk|
    }

    /** Dropping one reference to buffer i would not lose changed data. */
    ghost predicate MayDrop(i: nat) {
      && i < |bufs| && bufs[i].dev == ROOTDEV && bufs[i].blockno < |disk|
      && (bufs[i].refcnt == 1 && bufs[i].valid ==> bufs[i].data == disk[bufs[i].blockno])
    }

    function SetRef(i: nat, r: nat): State
      requires i < |bufs|
    {
      this.(bufs := bufs[i := bufs[i].(refcnt := r)])
    }
  }

  // ----- what each elementary change does to the view, the counts and the idle buffers

  lemma SetRefEffect(s: State, i: nat, r: nat)
    requires s.Ok() && i < NBUF && s.bufs[i].dev == ROOTDEV && r < WRAP
    requires r == 0 && s.bufs[i].valid ==> s.bufs[i].data == s.disk[s.bufs[i].blockno]
    ensures var t := s.SetRef(i, r);
            && t.Ok() && t.Views() == s.Views()
            && t.Refs() == s.Refs()[s.bufs[i].blockno := r]
            && t.Idle() == if r == 0 then s.Idle() + {i} else s.Idle() - {i}
  {
  }

  /** Recycling an unused buffer loses nothing: every block still reads the same. */
  lemma RecycleEffect(s: State, i: nat, b: nat)
    requires s.Ok() && b < |s.disk| && b !in s.slot && i < NBUF && s.bufs[i].refcnt == 0
    ensures var u := s.bufs[i];
            var t := State(s.disk, s.bufs[i := Buf(false, ROOTDEV, b, 1, u.data)],
                           (if u.dev == ROOTDEV then s.slot - {u.blockno} else s.slot)[b := i]);
            && t.Ok() && t.Views() == s.Views()
            && t.Refs() == s.Refs()[b := 1]
            && t.Idle() == s.Idle() - {i}
  {
  }

  lemma SetDataEffect(s: State, i: nat, data: Block, valid: bool)
    requires s.Ok() && i < NBUF && s.bufs[i].dev == ROOTDEV && s.bufs[i].refcnt > 0
    requires valid
    ensures var t := s.(bufs := s.bufs[i := s.bufs[i].(data := data, valid := valid)]);
            && t.Ok() && t.Views() == s.Views()[s.bufs[i].blockno := data]
            && t.Refs() == s.Refs() && t.Idle() == s.Idle()
  {
  }

  lemma HitView(s: State, i: nat, b: nat)
    requires s.Ok() && i < NBUF && s.bufs[i].dev == ROOTDEV && s.bufs[i].blockno == b
    ensures b < |s.disk|
    ensures s.Views()[b] == if s.bufs[i].valid then s.bufs[i].data else s.disk[b]
  {
  }

  lemma WriteEffect(s: State, i: nat, b: nat)
    requires s.Ok() && s.Holding(i, b)
    ensures var t := s.(disk := s.disk[b := s.bufs[i].data]);
            && t.Ok() && t.Views() == s.Views() && t.Refs() == s.Refs() && t.Idle() == s.Idle()
  {
  }

  class Cache {
    var disk: Disk
    var bufs: seq<Buf>
    var order: seq<nat>
    ghost var slot: map<nat, nat>
    ghost var writes: seq<Write>      // every block write so far, in order

    ghost function S(): State
      reads this
    {
      State(disk, bufs, slot)
    }

    ghost predicate Valid()
      reads this
    {
      S().Ok() && Linked()
    }

    /** Every buffer is in the list, and so just once. */
    ghost predicate Linked()
      reads this
    {
      && |bufs| == NBUF == |order|
      && (forall k :: 0 <= k < |order| ==> order[k] < NBUF)
      && (forall i :: 0 <= i < NBUF ==> i in order)
    }

    /** Every buffer behind i in the list is in use. */
    ghost predicate Oldest(i: nat)
      requires Linked()
      reads this
    {
      exists k :: 0 <= k < NBUF && order[k] == i && forall j :: k < j < NBUF ==> bufs[order[j]].refcnt != 0
    }

    /** binit over a disk: NBUF buffers that cache nothing. */
    constructor (d: Disk)
      ensures Valid() && disk == d && writes == [] && slot == map[]
      ensures forall i :: 0 <= i < NBUF ==> bufs[i].refcnt == 0
    {
      disk := d;
      bufs := seq(NBUF, _ => Buf(false, 0, 0, 0, []));
      order := seq(NBUF, i requires 0 <= i < NBUF => NBUF - 1 - i);
      writes := [];
      slot := map[];
      new;
      forall i | 0 <= i < NBUF
        ensures i in order
      {
        assert order[NBUF - 1 - i] == i;
      }
    }

    /** Scan from head.next for a buffer that caches block b. */
    method FindCached(b: nat) returns (found: bool, i: nat)
      requires Linked() && S().Mapped() && b < |disk|
      ensures found <==> b in slot
      ensures found ==> i < NBUF && bufs[i].dev == ROOTDEV && bufs[i].blockno == b
      ensures S().Ok() ==> S().Refs()[b] == if found then bufs[i].refcnt else 0
    {
      var k := 0;
      while k < |order|
        invariant k <= |order|
        invariant forall j :: 0 <= j < k ==> !(bufs[order[j]].dev == ROOTDEV && bufs[order[j]].blockno == b)
      {
        if bufs[order[k]].dev == ROOTDEV && bufs[order[k]].blockno == b {
          return true, order[k];
        }
        k := k + 1;
      }
      assert forall c :: c in slot ==> slot[c] in order;
      return false, 0;
    }

    /** Scan from head.prev for an unused buffer: the least recently used one. */
    method FindIdle() returns (found: bool, i: nat)
      requires Linked()
      ensures found <==> S().Idle() != {}
      ensures found ==> i < NBUF && bufs[i].refcnt == 0 && Oldest(i)
    {
      var k := |order|;
      while k > 0
        invariant 0 <= k <= |order|
        invariant forall j :: k <= j < |order| ==> bufs[order[j]].refcnt != 0
      {
        k := k - 1;
        if bufs[order[k]].refcnt == 0 {
          assert order[k] in S().Idle();
          return true, order[k];
        }
      }
      assert forall s :: s in S().Idle() ==> s in order;
      return false, 0;
    }

    /** bget: fails (panic "no buffers") exactly when b is not cached and no buffer is unused. */
    method Bget(b: nat) returns (ok: bool, i: nat)
      requires Valid() && b < |disk| && S().Refs()[b] + 1 < WRAP
      modifies this`bufs, this`slot
      ensures Valid()
      ensures !ok <==> b !in old(slot) && old(S()).Idle() == {}
      ensures !ok ==> S() == old(S())
      ensures ok ==> S().Views() == old(S()).Views()
      ensures ok ==> S().Refs() == old(S()).Refs()[b := old(S()).Refs()[b] + 1]
      ensures ok ==> i < NBUF && S().Idle() == old(S()).Idle() - {i}
      ensures ok ==> bufs == old(bufs)[i := bufs[i]] && bufs[i].dev == ROOTDEV && bufs[i].blockno == b
      ensures ok ==> b in slot
      ensures ok ==> old(bufs)[i].refcnt == old(S()).Refs()[b] && bufs[i].refcnt == old(S()).Refs()[b] + 1
      ensures ok ==> old(bufs)[i].refcnt > 0 ==> old(bufs)[i].blockno == b
      ensures old(S()).Refs()[b] > 0 ==> ok
      ensures ok && b !in old(slot) ==> old(Oldest(i))
    {
      ok, i := FindCached(b);
      hide State.Ok, State.Views, State.Refs, State.Idle;
      if ok {
        Bpin(i);
      } else {
        ok, i := FindIdle();
        if ok {
          Recycle(i, b);
        }
      }
    }

    /** Give an unused buffer to a block that is not cached. */
    method Recycle(i: nat, b: nat)
      requires Valid() && b < |disk| && b !in slot && i < NBUF && bufs[i].refcnt == 0
      modifies this`bufs, this`slot
      ensures Valid()
      ensures bufs == old(bufs)[i := Buf(false, ROOTDEV, b, 1, old(bufs)[i].data)] && b in slot
      ensures S().Views() == old(S()).Views()
      ensures S().Refs() == old(S()).Refs()[b := 1]
      ensures S().Idle() == old(S()).Idle() - {i}
    {
      RecycleEffect(S(), i, b);
      hide State.Ok, State.Views, State.Refs, State.Idle;
      ghost var victim := bufs[i];
      bufs := bufs[i := Buf(false, ROOTDEV, b, 1, bufs[i].data)];
      slot := (if victim.dev == ROOTDEV then slot - {victim.blockno} else slot)[b := i];
    }

    /** bread: bget, then fill an invalid buffer from the disk. */
    method Bread(b: nat) returns (ok: bool, i: nat)
      requires Valid() && b < |disk| && S().Refs()[b] + 1 < WRAP
      modifies this`bufs, this`slot
      ensures Valid()
      ensures !ok <==> b !in old(slot) && old(S()).Idle() == {}
      ensures !ok ==> S() == old(S())
      ensures ok ==> S().Views() == old(S()).Views()
      ensures ok ==> S().Refs() == old(S()).Refs()[b := old(S()).Refs()[b] + 1]
      ensures ok ==> i < NBUF && S().Idle() == old(S()).Idle() - {i}
      ensures ok ==> bufs == old(bufs)[i := bufs[i]] && S().Holding(i, b) && bufs[i].data == old(S()).Views()[b]
      ensures ok ==> b in slot
      ensures ok ==> old(bufs)[i].refcnt == old(S()).Refs()[b] && bufs[i].refcnt == old(S()).Refs()[b] + 1
      ensures ok ==> old(bufs)[i].refcnt > 0 ==> old(bufs)[i].blockno == b
      ensures ok && b !in old(slot) ==> old(Oldest(i))
      ensures old(S()).Refs()[b] > 0 ==> ok
    {
      hide State.Ok, State.Views, State.Refs, State.Idle;
      ok, i := Bget(b);
      if ok {
        HitView(S(), i, b);
        if !bufs[i].valid {
          SetDataEffect(S(), i, disk[b], true);
          bufs := bufs[i := bufs[i].(data := disk[b], valid := true)];
        }
      }
    }

    /** The holder of a buffer overwrites its data. */
    method SetData(i: nat, ghost b: nat, data: Block)
      requires Valid() && S().Holding(i, b)
      modifies this`bufs
      ensures Valid()
      ensures bufs == old(bufs)[i := old(bufs)[i].(data := data)]
      ensures S().Views() == old(S()).Views()[b := data]
      ensures S().Refs() == old(S()).Refs() && S().Idle() == old(S()).Idle()
    {
      SetDataEffect(S(), i, data, true);
      hide State.Ok, State.Views, State.Refs, State.Idle;
      bufs := bufs[i := bufs[i].(data := data)];
    }

    /** bwrite: one atomic block write of the buffer's data. */
    method Bwrite(i: nat, ghost b: nat)
      requires Valid() && S().Holding(i, b)
      modifies this`disk, this`writes
      ensures Valid()
      ensures disk == old(disk)[b := bufs[i].data]
      ensures writes == old(writes) + [Write(b, bufs[i].data)]
      ensures S().Views() == old(S()).Views() && S().Refs() == old(S()).Refs() && S().Idle() == old(S()).Idle()
    {
      WriteEffect(S(), i, b);
      hide State.Ok, State.Views, State.Refs, State.Idle;
      disk := disk[bufs[i].blockno := bufs[i].data];
      writes := writes + [Write(bufs[i].blockno, bufs[i].data)];
    }

    /** bpin: an extra reference, so that the buffer cannot be recycled. */
    method Bpin(i: nat)
      requires Valid() && i < NBUF && bufs[i].dev == ROOTDEV && bufs[i].refcnt + 1 < WRAP
      modifies this`bufs
      ensures Valid()
      ensures bufs == old(bufs)[i := old(bufs)[i].(refcnt := old(bufs)[i].refcnt + 1)]
      ensures S().Views() == old(S()).Views()
      ensures S().Refs() == old(S()).Refs()[bufs[i].blockno := bufs[i].refcnt]
      ensures S().Idle() == old(S()).Idle() - {i}
    {
      SetRefEffect(S(), i, bufs[i].refcnt + 1);
      hide State.Ok, State.Views, State.Refs, State.Idle;
      bufs := bufs[i := bufs[i].(refcnt := bufs[i].refcnt + 1)];
    }

    /** bunpin: refcnt--, wrapping below zero as the C code does. */
    method Bunpin(i: nat)
      requires Valid() && S().MayDrop(i)
      modifies this`bufs
      ensures Valid()
      ensures bufs == old(bufs)[i := old(bufs)[i].(refcnt := Dec(old(bufs)[i].refcnt))]
      ensures S().Views() == old(S()).Views()
      ensures S().Refs() == old(S()).Refs()[bufs[i].blockno := bufs[i].refcnt]
      ensures S().Idle() == if bufs[i].refcnt == 0 then old(S()).Idle() + {i} else old(S()).Idle() - {i}
    {
      SetRefEffect(S(), i, Dec(bufs[i].refcnt));
      hide State.Ok, State.Views, State.Refs, State.Idle;
      bufs := bufs[i := bufs[i].(refcnt := Dec(bufs[i].refcnt))];
    }

    /** brelse: drop the reference; a buffer nobody uses any more becomes the most recent one. */
    method Brelse(i: nat)
      requires Valid() && S().MayDrop(i)
      modifies this`bufs, this`order
      ensures Valid()
      ensures bufs == old(bufs)[i := old(bufs)[i].(refcnt := Dec(old(bufs)[i].refcnt))]
      ensures S().Views() == old(S()).Views()
      ensures S().Refs() == old(S()).Refs()[bufs[i].blockno := bufs[i].refcnt]
      ensures S().Idle() == if bufs[i].refcnt == 0 then old(S()).Idle() + {i} else old(S()).Idle() - {i}
      ensures if bufs[i].refcnt == 0 then WentFirst(old(order), order, i) else order == old(order)
    {
      Bunpin(i);
      if bufs[i].refcnt == 0 {
        ToFront(i);
      }
    }

    /** Relink buffer i at the head of the list. */
    method ToFront(i: nat)
      requires Linked() && i < NBUF
      modifies this`order
      ensures Linked() && WentFirst(old(order), order, i)
    {
      assert i in order;
      var k: nat := 0;
      while order[k] != i
        invariant k < |order| && i in order[k..]
        decreases |order| - k
      {
        k := k + 1;
      }
      FrontIs(order, k);
      order := MoveToFront(order, k);
      assert forall j :: 0 <= j < NBUF && j in old(order) ==> j in order;
    }

    // What a count of 2^32 - 1 does, as boot recovery leaves it behind: see LosesChange in WriteAheadLog.

    /** bread of a block with that count, and a change: the count wraps. */
    method ReadWrapped(b: nat, data: Block) returns (i: nat)
      requires Valid() && b < |disk| && S().Refs()[b] == WRAP - 1
      modifies this`bufs
      ensures Linked() && i < NBUF && old(bufs)[i].dev == ROOTDEV && old(bufs)[i].blockno == b
      ensures bufs == old(bufs)[i := Buf(true, ROOTDEV, b, 0, data)]
    {
      var found;
      found, i := FindCached(b);
      hide State.Ok, State.Views, State.Refs, State.Mapped;
      bufs := bufs[i := Buf(true, ROOTDEV, b, Inc(bufs[i].refcnt), data)];
    }

    /** bpin, then brelse, of that buffer. */
    method PinAndRelease(i: nat)
      requires Linked() && i < NBUF && bufs[i].refcnt == 0
      modifies this`bufs, this`order
      ensures Linked() && bufs == old(bufs)
    {
      bufs := bufs[i := bufs[i].(refcnt := Inc(bufs[i].refcnt))];
      bufs := bufs[i := bufs[i].(refcnt := Dec(bufs[i].refcnt))];
      ToFront(i);
    }

    /** bget of block c, when that buffer of b is the only idle one. */
    method TakeWrapped(ghost s: State, b: nat, data: Block, i: nat, c: nat)
      requires s.Ok() && i < NBUF && s.bufs[i].dev == ROOTDEV && s.bufs[i].blockno == b && s.Idle() == {}
      requires Linked() && S() == s.(bufs := s.bufs[i := Buf(true, ROOTDEV, b, 0, data)])
      requires c < |disk| && c !in slot
      modifies this`bufs, this`slot
      ensures Valid() && bufs == old(bufs)[i := Buf(false, ROOTDEV, c, 1, data)]
      ensures slot == (old(slot) - {b})[c := i] && b !in slot
      ensures S().Views() == s.Views()[b := disk[b]]
    {
      WrappedIdle(s, i, b, data);
      WrappedLost(s, i, b, data, c);
      hide State.Ok, State.Views, State.Refs, State.Idle, State.Mapped;
      var cached, j := FindCached(c);
      cached, j := FindIdle();
      bufs := bufs[j := Buf(false, ROOTDEV, c, 1, bufs[j].data)];
      slot := (slot - {b})[c := j];
      assert j == i && bufs == s.bufs[i := Buf(false, ROOTDEV, c, 1, data)];
      assert S() == State(s.disk, s.bufs[i := Buf(false, ROOTDEV, c, 1, data)], (s.slot - {b})[c := i]);
    }
  }

  /** The buffer of b with a count that wrapped to 0 is the only idle one. */
  lemma WrappedIdle(s: State, i: nat, b: nat, data: Block)
    requires s.Ok() && i < NBUF && s.bufs[i].dev == ROOTDEV && s.bufs[i].blockno == b && s.Idle() == {}
    ensures var t := s.(bufs := s.bufs[i := Buf(true, ROOTDEV, b, 0, data)]);
            t.Mapped() && t.Idle() == {i} && forall j :: 0 <= j < NBUF && t.bufs[j].refcnt == 0 ==> j == i
  {
    var t := s.(bufs := s.bufs[i := Buf(true, ROOTDEV, b, 0, data)]);
    assert forall k :: 0 <= k < NBUF && s.bufs[k].refcnt == 0 ==> k in s.Idle();
    assert i in t.Idle();
    assert forall j :: 0 <= j < NBUF && t.bufs[j].refcnt == 0 ==> j in t.Idle();
  }

  lemma WrappedLost(s: State, i: nat, b: nat, data: Block, c: nat)
    requires s.Ok() && i < NBUF && s.bufs[i].dev == ROOTDEV && s.bufs[i].blockno == b
    requires c < |s.disk| && c !in s.slot
    ensures var t := State(s.disk, s.bufs[i := Buf(false, ROOTDEV, c, 1, data)], (s.slot - {b})[c := i]);
            t.Ok() && t.Views() == s.Views()[b := s.disk[b]]
  {
  }
}
