/**
 struct log and its shadow: the copy dup_lhdr / dup_outstanding, and the snapshot that
 enter_trans_log takes (kernel/trans.c). Each update of kernel/log.c runs here statement by
 statement and may be cut off by a memory error after any of them; Rebuild is what
 kernel/recovery_handler_log.c then makes of the shadow.
 */
module LogShadow {
  import opened Params

  datatype Header = Header(n: int, block: seq<int>) {
    predicate Valid() { |block| == LOGSIZE && 0 <= n <= LOGSIZE }
    function Listed(): seq<int>
      requires Valid()
    {
      block[..n]
    }
  }

  /** What a log says: the blocks listed, and how many operations run. */
  datatype Record = Record(listed: seq<int>, outstanding: int)

  /** Both copies, and what the running process keeps for a transaction. */
  datatype Image = Image(
    lh: Header, outstanding: int,
    dup: Header, dupOutstanding: int,      // dup_lhdr, dup_outstanding
    snap: Header, snapOutstanding: int,    // log_logheader, log_outstanding
    ntrans: int)                           // log_ntrans
  {
    /** What holds inside an update too. */
    predicate Sound() {
      lh.Valid() && dup.Valid() && snap.Valid() && 0 <= dupOutstanding && -1 <= snapOutstanding && 0 <= ntrans
    }

    /**
     Between updates the copy agrees with the original. A transaction may be open and a snapshot
     of outstanding kept: an earlier rebuild leaves both as it found them.
     */
    predicate Mirrored() { Sound() && dup.Listed() == lh.Listed() && dupOutstanding == outstanding }

    function Says(): Record
      requires lh.Valid()
    {
      Record(lh.Listed(), outstanding)
    }

    /** The snapshot says r, if it says anything about outstanding at all. */
    predicate Keeps(r: Record)
      requires snap.Valid()
    {
      snap.Listed() == r.listed && (snapOutstanding < 0 || snapOutstanding == r.outstanding)
    }

    /** What the recovery handler would rebuild now. */
    function Rebuilt(): Record
      requires dup.Valid() && snap.Valid()
    {
      if ntrans > 0
      then Record(snap.Listed(), if snapOutstanding >= 0 then snapOutstanding else dupOutstanding)
      else Record(dup.Listed(), dupOutstanding)
    }

    /** The handler went from this image to t. */
    predicate Handled(t: Image)
      requires Sound()
    {
      && t.Mirrored() && t.Says() == Rebuilt()
      && t.ntrans == ntrans && t.snap == snap && t.snapOutstanding == snapOutstanding
    }

    /** log_write had opened its transaction on this image and was cut off inside it, in t. */
    predicate Opened(t: Image)
      requires Mirrored()
    {
      t.Sound() && t.ntrans == ntrans + 1 && t.snap == lh && t.snapOutstanding == outstanding
    }

    /** A log_write of b that ran to its end went from this image to t. */
    predicate Logged(b: int, t: Image)
      requires Mirrored()
    {
      && t.Mirrored() && t.Says() == Effect(Says(), Write(b))
      && t.ntrans == ntrans && t.snap == lh && t.snapOutstanding == -1
    }

    /** So many begin_ops that ran to their end went from this image to t. */
    predicate Begun(ops: nat, t: Image) {
      t == this.(outstanding := outstanding + ops, dupOutstanding := dupOutstanding + ops)
    }
  }

  /**
   With a transaction left open no finished log_write of a new block outlives the next rebuild,
   and with a snapshot of outstanding kept no finished begin_op does.
   */
  lemma OpenForgets(mid: Image, late: Image, next: Image, b: int, ops: nat)
    requires mid.Mirrored() && late.Mirrored() && mid.ntrans > 0 && late.Handled(next)
    ensures mid.Logged(b, late) ==> next.Says() == mid.Says()
    ensures mid.Begun(ops, late) ==> next.Says().listed == mid.snap.Listed()
    ensures mid.Begun(ops, late) ==>
              next.outstanding == if mid.snapOutstanding >= 0 then mid.snapOutstanding else mid.outstanding + ops
  {
  }

  /** How many operations a rebuild finds after op was cut off. */
  function Counted(was: Image, op: Op, stop: nat): int {
    if was.ntrans > 0 && was.snapOutstanding >= 0 && (op.Write? ==> stop < 2) then was.snapOutstanding
    else if stop >= 2 && op.Begin? then was.outstanding + 1
    else if stop >= 2 && op.End? then was.outstanding - 1
    else was.outstanding
  }

  class Log {
    var lh: Header
    var outstanding: int
    var dup: Header           // dup_lhdr
    var dupOutstanding: int   // dup_outstanding
    var snap: Header          // log_logheader
    var snapOutstanding: int  // log_outstanding
    var ntrans: int           // log_ntrans of the running process

    function Now(): Image
      reads this
    {
      Image(lh, outstanding, dup, dupOutstanding, snap, snapOutstanding, ntrans)
    }

    predicate Mirrored()
      reads this
    {
      Now().Mirrored()
    }

    predicate Sound()
      reads this
    {
      Now().Sound()
    }

    predicate Keeps(r: Record)
      requires snap.Valid()
      reads this
    {
      Now().Keeps(r)
    }

    function Says(): Record
      requires lh.Valid()
      reads this
    {
      Now().Says()
    }

    function Rebuilt(): Record
      requires dup.Valid() && snap.Valid()
      reads this
    {
      Now().Rebuilt()
    }

    constructor ()
      ensures Mirrored() && ntrans == 0 && Says() == Record([], 0)
    {
      var empty := Header(0, seq(LOGSIZE, _ => 0));
      lh, dup, snap := empty, empty, empty;
      outstanding, dupOutstanding, snapOutstanding := 0, 0, -1;
      ntrans := 0;
    }

    /** check_and_handle_trans_logheader, then the copy into the new log. */
    method Rebuild()
      requires Sound()
      modifies this
      ensures old(Now()).Handled(Now())
    {
      if ntrans > 0 {
        dup := snap;
        if snapOutstanding >= 0 {
          dupOutstanding := snapOutstanding;
        }
      }
      var block := seq(LOGSIZE, _ => 0);
      var i := 0;
      while i < dup.n
        invariant 0 <= i <= dup.n
        invariant |block| == LOGSIZE && block[..i] == dup.block[..i]
      {
        block := block[i := dup.block[i]];
        i := i + 1;
      }
      lh := Header(dup.n, block);
      outstanding := dupOutstanding;
    }

    /**
     log_write's update for block b, cut off after `stop` statements. With no transaction open,
     or once both snapshots are taken, the rebuild gives the log before or after; else exactly
     when what is left of the old snapshot agrees. A finished update outlives a rebuild exactly
     when no transaction was open or the block was listed already.
     */
    method LogWrite(b: int, stop: nat) returns (finished: bool)
      requires Mirrored() && lh.n < LOGSIZE
      modifies this
      ensures stop >= 10 ==> finished
      ensures Sound()
      ensures
        var before, after := old(Says()), Effect(old(Says()), Write(b));
        && (old(ntrans) == 0 || stop >= 2 ==> Rebuilt() == before || Rebuilt() == after)
        && (old(ntrans) > 0 && stop == 1 ==>
              (Rebuilt() == before || Rebuilt() == after
               <==> old(snapOutstanding) < 0 || old(snapOutstanding) == before.outstanding))
        && (old(ntrans) > 0 && stop == 0 ==>
              (Rebuilt() == before || Rebuilt() == after <==> old(Keeps(before)) || old(Keeps(after))))
        && (finished ==> old(Now()).Logged(b, Now()))
        && (finished ==> Rebuilt() == if ntrans == 0 then after else before)
        && (3 <= stop <= (if b in before.listed then 5 else 8) ==>
              !finished && old(Now()).Opened(Now()) && Rebuilt() == before)
        && (!finished && (stop < 3 || stop == 9) ==> ntrans == old(ntrans))
      ensures finished ==>
                && outstanding == old(outstanding)
                && Says().listed == if b in old(Says()).listed then old(Says()).listed else old(Says()).listed + [b]
      ensures Rebuilt().outstanding == Counted(old(Now()), Write(b), stop)
      ensures Rebuilt().listed == if old(ntrans) == 0 && stop >= 9 then Effect(old(Says()), Write(b)).listed
                                  else if old(ntrans) > 0 && stop == 0 then old(snap).Listed() else old(Says()).listed
    {
      finished := false;
      var i := 0;
      while i < lh.n && lh.block[i] != b
        invariant 0 <= i <= lh.n
        invariant b !in lh.block[..i]
      {
        i := i + 1;
      }
      assert b in lh.Listed() <==> i < lh.n by {
        if i < lh.n { assert lh.Listed()[i] == b; }
      }
      if stop == 0 { return; }
      snap := lh;
      if stop == 1 { return; }
      snapOutstanding := outstanding;
      if stop == 2 { return; }
      ntrans := ntrans + 1;
      if stop == 3 { return; }
      finished := Store(b, i, stop);
    }

    /** The statements of log_write from its fourth on, inside the transaction; b goes to slot i. */
    method Store(b: int, i: nat, stop: nat) returns (finished: bool)
      requires Mirrored() && lh.n < LOGSIZE && stop > 3 && ntrans > 0 && snap == lh && snapOutstanding == outstanding
      requires i <= lh.n && b !in lh.block[..i] && (i < lh.n ==> lh.block[i] == b)
      modifies this`lh, this`dup, this`ntrans, this`snapOutstanding
      ensures Sound() && dupOutstanding == outstanding && (stop >= 10 ==> finished)
      ensures stop <= (if i < old(lh.n) then 5 else 8) ==> !finished
      ensures !finished && stop < 9 ==> ntrans == old(ntrans) && snapOutstanding == old(snapOutstanding)
      ensures finished || stop >= 9 ==>
                && Mirrored() && ntrans == old(ntrans) - 1
                && Says() == Effect(old(Says()), Write(b))
      ensures snapOutstanding == if finished then -1 else outstanding
    {
      finished := false;
      lh := lh.(block := lh.block[i := b]);
      if stop == 4 { return; }
      dup := dup.(block := dup.block[i := b]);
      if stop == 5 { return; }
      if i == lh.n {
        if stop == 6 { return; }   // bpin(b)
        lh := lh.(n := lh.n + 1);
        if stop == 7 { return; }
        dup := dup.(n := dup.n + 1);
        if stop == 8 { return; }
      }
      ntrans := ntrans - 1;
      if stop == 9 { return; }
      snapOutstanding := -1;
      finished := true;
    }

    /**
     begin_op's update, cut off after `stop` statements: the rebuild gives the log before or
     after exactly when no transaction is open or its snapshot says one of the two.
     */
    method BeginOp(stop: nat) returns (finished: bool)
      requires Mirrored()
      modifies this
      ensures finished <==> stop >= 2
      ensures Sound()
      ensures ntrans == old(ntrans) && snap == old(snap) && snapOutstanding == old(snapOutstanding)
      ensures
        var before, after := old(Says()), Effect(old(Says()), Begin);
        && (Rebuilt() == before || Rebuilt() == after <==> ntrans == 0 || Keeps(before) || Keeps(after))
        && (finished ==> Mirrored() && Says() == after)
        && (finished ==> (Rebuilt() == after <==> ntrans == 0 || Keeps(after)))
        && (ntrans == 0 ==> Rebuilt() == if finished then after else before)
      ensures finished ==> outstanding == old(outstanding) + 1 && Says().listed == old(Says()).listed
      ensures Rebuilt().outstanding == Counted(old(Now()), Begin, stop)
      ensures finished ==> old(Now()).Begun(1, Now())
    {
      finished := false;
      if stop == 0 { return; }
      outstanding := outstanding + 1;
      if stop == 1 { return; }
      dupOutstanding := dupOutstanding + 1;
      finished := true;
    }

    /** end_op's update, cut off after `stop` statements; see BeginOp. */
    method EndOp(stop: nat) returns (finished: bool)
      requires Mirrored() && outstanding > 0
      modifies this
      ensures finished <==> stop >= 2
      ensures Sound()
      ensures ntrans == old(ntrans) && snap == old(snap) && snapOutstanding == old(snapOutstanding)
      ensures
        var before, after := old(Says()), Effect(old(Says()), End);
        && (Rebuilt() == before || Rebuilt() == after <==> ntrans == 0 || Keeps(before) || Keeps(after))
        && (finished ==> Mirrored() && Says() == after)
        && (finished ==> (Rebuilt() == after <==> ntrans == 0 || Keeps(after)))
        && (ntrans == 0 ==> Rebuilt() == if finished then after else before)
      ensures finished ==> outstanding == old(outstanding) - 1 && Says().listed == old(Says()).listed
      ensures Rebuilt().outstanding == Counted(old(Now()), End, stop)
    {
      finished := false;
      if stop == 0 { return; }
      outstanding := outstanding - 1;
      if stop == 1 { return; }
      dupOutstanding := dupOutstanding - 1;
      finished := true;
    }

    /** commit's `lh.n = 0` on both copies, cut off after `stop` statements; see BeginOp. */
    method Clear(stop: nat) returns (finished: bool)
      requires Mirrored()
      modifies this
      ensures finished <==> stop >= 2
      ensures Sound()
      ensures ntrans == old(ntrans) && snap == old(snap) && snapOutstanding == old(snapOutstanding)
      ensures
        var before, after := old(Says()), Effect(old(Says()), Op.Clear);
        && (Rebuilt() == before || Rebuilt() == after <==> ntrans == 0 || Keeps(before) || Keeps(after))
        && (finished ==> Mirrored() && Says() == after)
        && (finished ==> (Rebuilt() == after <==> ntrans == 0 || Keeps(after)))
        && (ntrans == 0 ==> Rebuilt() == if finished then after else before)
      ensures finished ==> outstanding == old(outstanding) && Says().listed == []
    {
      finished := false;
      if stop == 0 { return; }
      lh := lh.(n := 0);
      if stop == 1 { return; }
      dup := dup.(n := 0);
      finished := true;
    }

    /**
     The log after a recovery as a whole: the handler takes the interrupted call out of the
     count once more. With no transaction open that is right for log_write, but a begin_op that
     had not counted itself yet takes another operation out of the count, and so does an end_op
     that already had; with one open it is right exactly when the count kept is.
     */
    method Recover(op: Op, stop: nat)
      requires Mirrored() && Allowed(Says(), op) && !op.Clear? && outstanding >= 0 && (op.Write? ==> outstanding > 0)
      modifies this
      ensures Mirrored()
      ensures Says().listed == old(Says()).listed || Says().listed == Effect(old(Says()), op).listed <==>
                || old(ntrans) == 0 || (op.Write? && stop > 0)
                || old(snap).Listed() == old(Says()).listed || old(snap).Listed() == Effect(old(Says()), op).listed
      ensures
        var counted := Counted(old(Now()), op, stop);
        var others := old(outstanding) - if op == Begin then 0 else 1;
        && outstanding == (if counted > 0 then counted - 1 else 0)
        && (old(ntrans) == 0 ==>
              (outstanding == others <==>
                 && (op == Begin ==> stop >= 2 || others == 0)
                 && (op == End ==> stop < 2 || others == 0)))
    {
      match op {
        case Write(b) => var _ := LogWrite(b, stop);
        case Begin => var _ := BeginOp(stop);
        case End => var _ := EndOp(stop);
      }
      Rebuild();
      if outstanding > 0 {
        outstanding, dupOutstanding := outstanding - 1, dupOutstanding - 1;
      }
    }

    /**
     Any run of updates, each possibly cut off by a memory error and followed by a rebuild, as
     long as no error leaves a transaction open: the log is what the updates make of it that
     were finished, or as good as finished.
     */
    method RunWithErrors(ops: seq<Op>, stops: seq<nat>) returns (ghost done: seq<bool>)
      requires Mirrored() && ntrans == 0 && |stops| == |ops|
      modifies this
      ensures Mirrored() && |done| <= |ops| && Says() == Applied(old(Says()), ops[..|done|], done)
      ensures forall k :: 0 <= k < |done| && stops[k] >= 10 ==> done[k]
      ensures |done| == |ops| || ntrans > 0 || !Allowed(Says(), ops[|done|])
      ensures ntrans > 0 ==> done != [] && stops[|done| - 1] < 10
    {
      ghost var start := Says();
      done := [];
      var k := 0;
      while k < |ops| && ntrans == 0 && Allowed(Says(), ops[k])
        invariant 0 <= k == |done| <= |ops| && Mirrored()
        invariant Says() == Applied(start, ops[..k], done)
        invariant forall j :: 0 <= j < k && stops[j] >= 10 ==> done[j]
        invariant ntrans > 0 ==> k > 0 && stops[k - 1] < 10
      {
        ghost var before, earlier := Says(), done;
        assert ops[..k + 1][..k] == ops[..k];
        var finished := Do(ops[k], stops[k]);
        if !finished {
          Rebuild();
        }
        done := done + [finished || Says() == Effect(before, ops[k])];
        assert done[..k] == earlier;
        k := k + 1;
      }
    }

    /**
     Any run of updates with a memory error in the last one, starting with no transaction
     open: what is rebuilt is the log from just before or just after the interrupted update.
     */
    method RunThenError(ops: seq<Op>, stop: nat) returns (ghost before: Record, ghost after: Record)
      requires Mirrored() && ntrans == 0 && |ops| > 0 && Possible(Says(), ops)
      modifies this
      ensures before == Effects(old(Says()), ops[..|ops| - 1])
      ensures after == Effects(old(Says()), ops)
      ensures lh.Valid() && (Says() == before || Says() == after)
    {
      before, after := Effects(Says(), ops[..|ops| - 1]), Effects(Says(), ops);
      ghost var start := Says();
      var stops := seq(|ops| - 1, _ => 10) + [stop];
      ghost var done := RunWithErrors(ops, stops);
      if done != [] {
        AllApplied(start, ops[..|done| - 1], done[..|done| - 1]);
        assert ops[..|done|][..|done| - 1] == ops[..|done| - 1];
      }
      assert ops[..|ops|] == ops;
    }

    method Do(op: Op, stop: nat) returns (finished: bool)
      requires Mirrored() && ntrans == 0 && Allowed(Says(), op)
      modifies this
      ensures stop >= 10 ==> finished
      ensures Sound()
      ensures Rebuilt() == old(Says()) || Rebuilt() == Effect(old(Says()), op)
      ensures finished ==> Mirrored() && ntrans == 0 && Says() == Effect(old(Says()), op)
      ensures op == Begin || op == End ==> (finished <==> stop >= 2) && ntrans == 0
      ensures op == Begin || op == End ==> Rebuilt() == if finished then Effect(old(Says()), op) else old(Says())
    {
      match op
      case Write(b) => finished := LogWrite(b, stop);
      case Begin => finished := BeginOp(stop);
      case End => finished := EndOp(stop);
      case Clear => finished := Clear(stop);
    }

    /**
     The rebuild never closes the transaction it finds open. log_write of a new block is cut off
     in `cut`, and the error is handled, which leaves `mid`; a log_write of another block runs
     to its end, which leaves `late`; the next rebuild takes that block out of the log again.
     */
    method LosesWrite(b: int, c: int, stop: nat)
      returns (ghost cut: Image, ghost mid: Image, ghost late: Image)
      requires Mirrored() && ntrans == 0 && lh.n < LOGSIZE && 3 <= stop <= 8
      requires b !in Says().listed && c !in Says().listed
      modifies this
      ensures old(Now()).Opened(cut) && cut.Handled(mid) && mid.Says() == old(Says())
      ensures mid.Logged(c, late) && c in late.Says().listed
      ensures late.Handled(Now()) && Says() == old(Says()) && c !in Says().listed
    {
      var finished := LogWrite(b, stop);
      cut := Now();
      Rebuild();
      mid := Now();
      finished := LogWrite(c, 10);
      late := Now();
      Rebuild();
      OpenForgets(mid, late, Now(), c, 0);
    }

    /**
     Nor does it count what began since: after such an error, in `cut`, handled in `mid`, any
     number of begin_ops run to their end, which leaves `late`, and the next rebuild forgets
     them all.
     */
    method ForgetsOps(b: int, stop: nat, ops: nat)
      returns (ghost cut: Image, ghost mid: Image, ghost late: Image)
      requires Mirrored() && ntrans == 0 && lh.n < LOGSIZE && 3 <= stop <= 8 && b !in Says().listed
      modifies this
      ensures old(Now()).Opened(cut) && cut.Handled(mid) && mid.Says() == old(Says())
      ensures mid.Begun(ops, late) && late.outstanding == old(outstanding) + ops
      ensures late.Handled(Now()) && Says() == old(Says())
    {
      var finished := LogWrite(b, stop);
      cut := Now();
      Rebuild();
      mid := Now();
      var k := 0;
      while k < ops
        invariant 0 <= k <= ops && Mirrored() && mid.Begun(k, Now())
      {
        finished := BeginOp(2);
        k := k + 1;
      }
      late := Now();
      Rebuild();
      OpenForgets(mid, late, Now(), b, ops);
    }
  }

  // ----- updates as functions

  datatype Op = Write(b: int) | Begin | End | Clear

  function Effect(r: Record, op: Op): Record {
    match op
    case Write(b) => if b in r.listed then r else r.(listed := r.listed + [b])
    case Begin => r.(outstanding := r.outstanding + 1)
    case End => r.(outstanding := r.outstanding - 1)
    case Clear => r.(listed := [])
  }

  /** log_write's guard, and end_op only by a running operation. */
  predicate Allowed(r: Record, op: Op) {
    match op
    case Write(b) => |r.listed| < LOGSIZE
    case Begin => true
    case End => r.outstanding > 0
    case Clear => true
  }

  function Effects(r: Record, ops: seq<Op>): Record {
    if ops == [] then r else Effect(Effects(r, ops[..|ops| - 1]), ops[|ops| - 1])
  }

  /** The effects of the updates that are marked as done. */
  function Applied(r: Record, ops: seq<Op>, done: seq<bool>): Record
    requires |done| == |ops|
  {
    if ops == [] then r
    else
      var before := Applied(r, ops[..|ops| - 1], done[..|ops| - 1]);
      if done[|ops| - 1] then Effect(before, ops[|ops| - 1]) else before
  }

  lemma {:induction false} AllApplied(r: Record, ops: seq<Op>, done: seq<bool>)
    requires |done| == |ops| && forall k :: 0 <= k < |ops| ==> done[k]
    ensures Applied(r, ops, done) == Effects(r, ops)
  {
    if ops == [] {
    } else {
      AllApplied(r, ops[..|ops| - 1], done[..|ops| - 1]);
    }
  }

  predicate Possible(r: Record, ops: seq<Op>) {
    forall k :: 0 <= k < |ops| ==> Allowed(Effects(r, ops[..k]), ops[k])
  }
}
