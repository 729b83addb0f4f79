/**
 Many processes running begin_op / log_write / end_op / commit of kernel/log.c, as a state
 machine. A step is what one process does between two points where another may run; the
 guard of log_write is read without the lock, so it is a step of its own, and every block
 write of commit is a step, so that power may fail before any of them.
 */
module LogProtocol {
  import opened Params
  import opened DiskLog

  /**
   Where a process is: outside, in begin_op's loop, asleep in it, inside an operation with
   some new blocks left to log and some changed blocks not logged yet, past log_write's
   guard for block b, or running commit with k block writes done.
   */
  datatype Phase =
    | Outside
    | Trying
    | Asleep
    | Active(budget: nat, dirty: set<nat>)
    | Checked(budget: nat, dirty: set<nat>, b: nat)
    | Committing(k: nat)
  {
    predicate InOp() { Active? || Checked? }
    function Budget(): nat { if InOp() then budget else 0 }
    function Dirty(): set<nat> { if InOp() then dirty else {} }
    function Woken(): Phase { if Asleep? then Trying else this }
  }

  /**
   lh, outstanding and committing are log's fields; view is what the buffer cache shows,
   base the disk when the running commit started, stable the view at the last commit point.
   */
  datatype State = State(
    lh: seq<int>, outstanding: int, committing: bool, procs: seq<Phase>,
    disk: Disk, view: Disk, base: Disk, stable: Disk)

  // ----- steps

  predicate MustWait(s: State) {
    s.committing || |s.lh| + (s.outstanding + 1) * MAXOPBLOCKS > LOGSIZE
  }

  /** "too big a transaction" */
  predicate LogFull(g: Geometry, s: State) {
    |s.lh| >= LOGSIZE || |s.lh| >= g.size - 1
  }

  function WakeAll(procs: seq<Phase>): (r: seq<Phase>)
    ensures |r| == |procs|
    ensures forall i :: 0 <= i < |procs| ==> r[i] == procs[i].Woken()
  {
    seq(|procs|, i requires 0 <= i < |procs| => procs[i].Woken())
  }

  ghost predicate Enter(s: State, t: State, p: nat) {
    && p < |s.procs| && s.procs[p].Outside?
    && t == s.(procs := s.procs[p := Trying])
  }

  /** One turn of begin_op's loop, holding log->lock. */
  ghost predicate Begin(s: State, t: State, p: nat) {
    && p < |s.procs| && s.procs[p].Trying?
    && t == if MustWait(s) then s.(procs := s.procs[p := Asleep])
            else s.(outstanding := s.outstanding + 1, procs := s.procs[p := Active(MAXOPBLOCKS, {})])
  }

  /** An operation changes a cached home block it holds. */
  ghost predicate Change(g: Geometry, s: State, t: State, p: nat, b: nat, data: Block) {
    && p < |s.procs| && s.procs[p].Active? && b < |s.view| && !g.InLog(b)
    && t == s.(view := s.view[b := data],
               procs := s.procs[p := Active(s.procs[p].budget, s.procs[p].dirty + {b})])
  }

  /** log_write's guards pass. An operation logs at most MAXOPBLOCKS blocks that were not listed. */
  ghost predicate Guard(g: Geometry, s: State, t: State, p: nat, b: nat) {
    && p < |s.procs| && s.procs[p].Active? && b < |s.view| && !g.InLog(b)
    && (s.procs[p].budget > 0 || b in s.lh)
    && !LogFull(g, s) && s.outstanding >= 1
    && t == s.(procs := s.procs[p := Checked(s.procs[p].budget, s.procs[p].dirty, b)])
  }

  /** log_write's locked part: absorb, or append. */
  ghost predicate Append(s: State, t: State, p: nat) {
    && p < |s.procs| && s.procs[p].Checked?
    && var c := s.procs[p];
    && t == if c.b in s.lh then s.(procs := s.procs[p := Active(c.budget, c.dirty - {c.b})])
            else s.(lh := s.lh + [c.b],
                    procs := s.procs[p := Active(if c.budget > 0 then c.budget - 1 else 0, c.dirty - {c.b})])
  }

  /** end_op up to the unlock, by an operation that has logged all it changed. */
  ghost predicate End(s: State, t: State, p: nat) {
    && p < |s.procs| && s.procs[p].Active? && s.procs[p].dirty == {}
    && !s.committing
    && var out := s.outstanding - 1;
    && t == if out == 0
            then s.(outstanding := out, committing := true, procs := s.procs[p := Committing(0)], base := s.disk)
            else s.(outstanding := out, procs := WakeAll(s.procs[p := Outside]))
  }

  /** commit's block writes, taken from the state commit started in. */
  function Plan(g: Geometry, s: State): seq<Write>
    requires TxOk(g, |s.view|, s.lh) && g.start < |s.base| && |s.base[g.start]| == WORDS
  {
    CommitWrites(g, s.lh, s.view, s.base[g.start])
  }

  /** The next block write of commit; the one after the log blocks is the commit point. */
  ghost predicate WriteBlock(g: Geometry, s: State, t: State, p: nat) {
    && p < |s.procs| && s.procs[p].Committing?
    && TxOk(g, |s.view|, s.lh) && g.start < |s.base| && |s.base[g.start]| == WORDS
    && var k := s.procs[p].k;
    && k < |Plan(g, s)| && Plan(g, s)[k].blockno < |s.disk|
    && t == s.(disk := s.disk[Plan(g, s)[k].blockno := Plan(g, s)[k].data],
               procs := s.procs[p := Committing(k + 1)],
               stable := if k == |s.lh| then s.view else s.stable)
  }

  /** commit returns, and end_op clears committing and wakes everybody. */
  ghost predicate Finish(g: Geometry, s: State, t: State, p: nat) {
    && p < |s.procs| && s.procs[p].Committing?
    && TxOk(g, |s.view|, s.lh) && g.start < |s.base| && |s.base[g.start]| == WORDS
    && s.procs[p].k == |Plan(g, s)|
    && t == s.(lh := [], committing := false, procs := WakeAll(s.procs[p := Outside]))
  }

  ghost predicate StepBy(g: Geometry, s: State, t: State, p: nat) {
    || Enter(s, t, p) || Begin(s, t, p)
    || (exists b: nat, data: Block :: Change(g, s, t, p, b, data))
    || (exists b: nat :: Guard(g, s, t, p, b))
    || Append(s, t, p) || End(s, t, p) || WriteBlock(g, s, t, p) || Finish(g, s, t, p)
  }

  ghost predicate Step(g: Geometry, s: State, t: State) {
    exists p: nat :: StepBy(g, s, t, p)
  }

  /** All processes outside, an empty log, a cache that agrees with the disk. */
  ghost predicate Init(g: Geometry, s: State) {
    && s.lh == [] && s.outstanding == 0 && !s.committing
    && (forall p :: 0 <= p < |s.procs| ==> s.procs[p].Outside?)
    && Holds(g, s.disk, s.disk) && s.view == s.disk && s.stable == s.disk && s.base == s.disk
  }

  /** The states of a run, one step apart. */
  ghost predicate Run(g: Geometry, tr: seq<State>) {
    && |tr| > 0 && Init(g, tr[0])
    && forall i, j :: 0 <= i < |tr| && j == i + 1 && j < |tr| ==> Step(g, tr[i], tr[j])
  }

  // ----- the counting invariant

  function BudgetOf(ph: Phase): nat { ph.Budget() }
  function OpOf(ph: Phase): nat { if ph.InOp() then 1 else 0 }
  function CommitOf(ph: Phase): nat { if ph.Committing? then 1 else 0 }

  function Sum(f: Phase -> nat, procs: seq<Phase>): nat {
    if procs == [] then 0 else Sum(f, procs[..|procs| - 1]) + f(procs[|procs| - 1])
  }

  lemma {:induction false} SumUpdate(f: Phase -> nat, procs: seq<Phase>, p: nat, x: Phase)
    requires p < |procs|
    ensures Sum(f, procs[p := x]) == Sum(f, procs) - f(procs[p]) + f(x)
    ensures f(procs[p]) <= Sum(f, procs)
  {
    var n := |procs| - 1;
    if p == n {
      assert procs[p := x][..n] == procs[..n];
    } else {
      assert procs[p := x][..n] == procs[..n][p := x];
      SumUpdate(f, procs[..n], p, x);
    }
  }

  lemma {:induction false} SumTwo(f: Phase -> nat, procs: seq<Phase>, p: nat, q: nat)
    requires p < q < |procs|
    ensures f(procs[p]) + f(procs[q]) <= Sum(f, procs)
  {
    var n := |procs| - 1;
    if q == n {
      SumUpdate(f, procs[..n], p, Outside);
    } else {
      SumTwo(f, procs[..n], p, q);
    }
  }

  lemma {:induction false} SumZero(f: Phase -> nat, procs: seq<Phase>)
    requires forall p :: 0 <= p < |procs| ==> f(procs[p]) == 0
    ensures Sum(f, procs) == 0
  {
    if procs != [] {
      SumZero(f, procs[..|procs| - 1]);
    }
  }

  lemma {:induction false} SumPositive(f: Phase -> nat, procs: seq<Phase>)
    requires Sum(f, procs) > 0
    ensures exists p :: 0 <= p < |procs| && f(procs[p]) > 0
  {
    var n := |procs| - 1;
    if f(procs[n]) == 0 {
      SumPositive(f, procs[..n]);
    }
  }

  lemma {:induction false} SumWoken(procs: seq<Phase>)
    ensures Sum(BudgetOf, WakeAll(procs)) == Sum(BudgetOf, procs)
    ensures Sum(OpOf, WakeAll(procs)) == Sum(OpOf, procs)
    ensures Sum(CommitOf, WakeAll(procs)) == Sum(CommitOf, procs)
  {
    if procs != [] {
      var n := |procs| - 1;
      assert WakeAll(procs)[..n] == WakeAll(procs[..n]);
      SumWoken(procs[..n]);
    }
  }

  lemma {:induction false} SumBounded(procs: seq<Phase>)
    requires forall p :: 0 <= p < |procs| ==> procs[p].Budget() <= MAXOPBLOCKS
    ensures Sum(BudgetOf, procs) <= MAXOPBLOCKS * Sum(OpOf, procs)
  {
    if procs != [] {
      SumBounded(procs[..|procs| - 1]);
    }
  }

  /**
   Reserved space never exceeds the log; outstanding counts the running operations; commit
   runs alone; an idle log is empty; whoever sleeps in begin_op still has to.
   */
  ghost predicate Counts(s: State) {
    && |s.lh| + Sum(BudgetOf, s.procs) <= LOGSIZE
    && (forall p :: 0 <= p < |s.procs| ==> s.procs[p].Budget() <= MAXOPBLOCKS)
    && s.outstanding == Sum(OpOf, s.procs)
    && Sum(CommitOf, s.procs) == (if s.committing then 1 else 0)
    && (s.committing ==> s.outstanding == 0)
    && (!s.committing && s.outstanding == 0 ==> s.lh == [])
    && (forall p :: 0 <= p < |s.procs| && s.procs[p].Asleep? ==> MustWait(s))
    && (forall p :: 0 <= p < |s.procs| && s.procs[p].Checked? ==> s.procs[p].budget > 0 || s.procs[p].b in s.lh)
  }

  lemma SumsUpdate(procs: seq<Phase>, p: nat, x: Phase)
    requires p < |procs|
    ensures Sum(BudgetOf, procs[p := x]) == Sum(BudgetOf, procs) - BudgetOf(procs[p]) + BudgetOf(x)
    ensures Sum(OpOf, procs[p := x]) == Sum(OpOf, procs) - OpOf(procs[p]) + OpOf(x)
    ensures Sum(CommitOf, procs[p := x]) == Sum(CommitOf, procs) - CommitOf(procs[p]) + CommitOf(x)
    ensures BudgetOf(procs[p]) <= Sum(BudgetOf, procs)
    ensures OpOf(procs[p]) <= Sum(OpOf, procs)
    ensures CommitOf(procs[p]) <= Sum(CommitOf, procs)
  {
    SumUpdate(BudgetOf, procs, p, x);
    SumUpdate(OpOf, procs, p, x);
    SumUpdate(CommitOf, procs, p, x);
  }

  lemma CountsInit(g: Geometry, s: State)
    requires Init(g, s)
    ensures Counts(s)
  {
    SumZero(BudgetOf, s.procs);
    SumZero(OpOf, s.procs);
    SumZero(CommitOf, s.procs);
  }

  lemma CountsLocal(g: Geometry, s: State, t: State, p: nat)
    requires Counts(s)
    requires || Enter(s, t, p) || Begin(s, t, p) || Append(s, t, p) || WriteBlock(g, s, t, p)
             || (exists b: nat, data: Block :: Change(g, s, t, p, b, data))
             || (exists b: nat :: Guard(g, s, t, p, b))
    ensures Counts(t)
  {
    hide Sum;
    SumBounded(s.procs);
    SumsUpdate(s.procs, p, t.procs[p]);
    assert t.procs == s.procs[p := t.procs[p]];
  }

  lemma NobodyActive(procs: seq<Phase>)
    ensures Sum(OpOf, procs) == 0 ==> forall q :: 0 <= q < |procs| ==> !procs[q].InOp()
  {
    forall q | 0 <= q < |procs|
      ensures OpOf(procs[q]) <= Sum(OpOf, procs)
    {
      SumUpdate(OpOf, procs, q, Outside);
    }
    assert forall q :: 0 <= q < |procs| ==> OpOf(procs[q]) <= Sum(OpOf, procs);
  }

  lemma CountsWaking(g: Geometry, s: State, t: State, p: nat)
    requires Counts(s)
    requires End(s, t, p) || Finish(g, s, t, p)
    ensures Counts(t)
    ensures t.committing || forall q :: 0 <= q < |t.procs| ==> !t.procs[q].Asleep?
  {
    hide Sum;
    SumsUpdate(s.procs, p, Outside);
    SumsUpdate(s.procs, p, Committing(0));
    SumWoken(s.procs[p := Outside]);
    NobodyActive(s.procs[p := Outside]);
    NobodyActive(s.procs[p := Committing(0)]);
  }

  // ----- the contents invariant

  /** The log area holds every reservation. mkfs's own nlog does not meet this. */
  predicate SafeSize(g: Geometry) { g.size - 1 >= LOGSIZE }

  ghost predicate SameHome(g: Geometry, d: Disk, e: Disk) {
    |d| == |e| && forall b :: 0 <= b < |d| && !g.InLog(b) ==> d[b] == e[b]
  }

  ghost predicate DirtyIn(s: State, b: nat) {
    exists p :: 0 <= p < |s.procs| && b in s.procs[p].Dirty()
  }

  /** The disk as the last commit left it. */
  function Settled(s: State): Disk { if s.committing then s.base else s.disk }

  /**
   Outside commit the disk holds stable and the log is empty; the view differs from it only
   on listed and on changed blocks. Commit has performed the first k writes of its plan.
   */
  ghost predicate Contents(g: Geometry, s: State) {
    && TxOk(g, |s.disk|, s.lh)
    && |s.view| == |s.disk| && |s.base| == |s.disk|
    && Holds(g, Settled(s), Settled(s))
    && (forall p :: 0 <= p < |s.procs| ==> HomeOnly(g, |s.disk|, s.procs[p]))
    && (forall b :: 0 <= b < |s.disk| && !g.InLog(b) && b !in s.lh && !DirtyIn(s, b) ==> s.view[b] == Settled(s)[b])
    && (!s.committing ==> SameHome(g, s.stable, s.disk))
    && (s.committing ==> forall p :: 0 <= p < |s.procs| && s.procs[p].Committing? ==> Progress(g, s, s.procs[p].k))
  }

  /** A process changes and logs home blocks only. */
  ghost predicate HomeOnly(g: Geometry, n: nat, ph: Phase) {
    && (forall b :: b in ph.Dirty() ==> b < n && !g.InLog(b))
    && (ph.Checked? ==> ph.b < n && !g.InLog(ph.b))
  }

  ghost predicate Progress(g: Geometry, s: State, k: nat)
    requires TxOk(g, |s.disk|, s.lh) && |s.view| == |s.disk| && |s.base| == |s.disk|
    requires g.start < |s.base| && |s.base[g.start]| == WORDS
  {
    && k <= |Plan(g, s)| && InRange(s.base, Plan(g, s))
    && s.disk == CrashAfter(s.base, Plan(g, s), k)
    && SameHome(g, s.stable, if k <= |s.lh| then s.base else s.view)
  }

  lemma ContentsInit(g: Geometry, s: State)
    requires Init(g, s)
    ensures Contents(g, s)
  {
  }

  /** Changed blocks stay marked, except for those in gone. */
  lemma DirtyKept(s: State, t: State, p: nat, gone: set<nat>)
    requires p < |s.procs| && |t.procs| == |s.procs|
    requires forall q :: 0 <= q < |s.procs| && q != p ==> t.procs[q].Dirty() == s.procs[q].Dirty()
    requires s.procs[p].Dirty() <= t.procs[p].Dirty() + gone
    ensures forall b: nat :: DirtyIn(s, b) && b !in gone ==> DirtyIn(t, b)
  {
    forall b: nat | DirtyIn(s, b) && b !in gone
      ensures DirtyIn(t, b)
    {
      var q :| 0 <= q < |s.procs| && b in s.procs[q].Dirty();
      assert b in t.procs[q].Dirty();
    }
  }

  /** Steps that touch neither the log, the disk nor the view. */
  lemma ContentsQuiet(g: Geometry, s: State, t: State, p: nat)
    requires Contents(g, s) && Counts(s)
    requires Enter(s, t, p) || Begin(s, t, p) || exists b: nat :: Guard(g, s, t, p, b)
    ensures Contents(g, t)
  {
    hide Sum, TxOk, CommitWrites, CrashAfter, SameHome, MustWait, LogFull;
    assert t.procs == s.procs[p := t.procs[p]];
    assert forall q :: 0 <= q < |s.procs| ==> t.procs[q].Dirty() == s.procs[q].Dirty();
    DirtyKept(s, t, p, {});
  }

  lemma ContentsChange(g: Geometry, s: State, t: State, p: nat, b: nat, data: Block)
    requires Contents(g, s) && Counts(s) && Change(g, s, t, p, b, data)
    ensures Contents(g, t)
  {
    hide Sum, TxOk, CommitWrites, CrashAfter;
    OpExcludesCommit(s, p);
    assert t.procs == s.procs[p := t.procs[p]];
    assert forall q :: 0 <= q < |s.procs| && q != p ==> t.procs[q].Dirty() == s.procs[q].Dirty();
    DirtyKept(s, t, p, {});
    assert b in t.procs[p].Dirty();
  }

  /** While some operation runs nothing is committing. */
  lemma OpExcludesCommit(s: State, p: nat)
    requires Counts(s) && p < |s.procs| && s.procs[p].InOp()
    ensures !s.committing && s.outstanding >= 1
  {
    SumUpdate(OpOf, s.procs, p, Outside);
  }

  lemma ContentsAppend(g: Geometry, s: State, t: State, p: nat)
    requires SafeSize(g) && Contents(g, s) && Counts(s) && Counts(t) && Append(s, t, p)
    ensures Contents(g, t)
  {
    hide Sum, CommitWrites, CrashAfter;
    OpExcludesCommit(s, p);
    assert t.procs == s.procs[p := t.procs[p]];
    assert forall q :: 0 <= q < |s.procs| && q != p ==> t.procs[q].Dirty() == s.procs[q].Dirty();
    DirtyKept(s, t, p, {s.procs[p].b});
    assert s.procs[p].b in t.lh;
  }

  /** With nothing running and the log empty, the view is the disk. */
  lemma NothingDirty(s: State)
    requires Counts(s) && s.outstanding == 0
    ensures forall b: nat :: !DirtyIn(s, b)
  {
    NobodyActive(s.procs);
  }

  lemma ContentsEnd(g: Geometry, s: State, t: State, p: nat)
    requires Contents(g, s) && Counts(s) && Counts(t) && End(s, t, p)
    ensures Contents(g, t)
  {
    hide Sum, TxOk, CommitWrites;
    assert forall q :: 0 <= q < |s.procs| ==> t.procs[q].Dirty() == s.procs[q].Dirty();
    DirtyKept(s, t, p, {});
    if t.committing {
      OnlyOneCommits(t, p);
      StartOfPlan(g, t);
    }
  }

  lemma StartOfPlan(g: Geometry, s: State)
    requires TxOk(g, |s.view|, s.lh) && 1 <= g.size && g.start + g.size <= |s.base| && |s.base| == |s.view|
    requires |s.base[g.start]| == WORDS
    ensures InRange(s.base, Plan(g, s)) && CrashAfter(s.base, Plan(g, s), 0) == s.base
  {
    CommitWritesInRange(g, s.lh, s.view, s.base[g.start]);
    assert Plan(g, s)[..0] == [];
  }

  lemma OnlyOneCommits(s: State, p: nat)
    requires Counts(s) && p < |s.procs| && s.procs[p].Committing?
    ensures s.committing
    ensures forall q :: 0 <= q < |s.procs| && s.procs[q].Committing? ==> q == p
  {
    SumUpdate(CommitOf, s.procs, p, Outside);
    forall q | 0 <= q < |s.procs| && s.procs[q].Committing?
      ensures q == p
    {
      if q < p {
        SumTwo(CommitOf, s.procs, q, p);
      } else if p < q {
        SumTwo(CommitOf, s.procs, p, q);
      }
    }
  }

  /** One more write of the plan, as a crash point one later. */
  lemma NextCrashPoint(d: Disk, ws: seq<Write>, k: nat)
    requires InRange(d, ws) && k < |ws|
    ensures CrashAfter(d, ws, k + 1) == CrashAfter(d, ws, k)[ws[k].blockno := ws[k].data]
  {
    assert ws[..k + 1][..k] == ws[..k];
    assert k + 1 == |ws| ==> ws[..k + 1] == ws;
  }

  lemma ContentsWrite(g: Geometry, s: State, t: State, p: nat)
    requires Contents(g, s) && Counts(s) && Counts(t) && WriteBlock(g, s, t, p)
    ensures Contents(g, t)
  {
    hide Sum, TxOk, CommitWrites, CrashAfter, Holds;
    OnlyOneCommits(s, p);
    OnlyOneCommits(t, p);
    ProgressMore(g, s, t, p);
    assert forall q :: 0 <= q < |s.procs| ==> t.procs[q].Dirty() == s.procs[q].Dirty();
    DirtyKept(s, t, p, {});
    hide Progress, Plan, SameHome;
  }

  lemma ProgressMore(g: Geometry, s: State, t: State, p: nat)
    requires Contents(g, s) && s.committing && WriteBlock(g, s, t, p)
    ensures |t.disk| == |s.disk| && Progress(g, t, s.procs[p].k + 1)
  {
    hide TxOk, CommitWrites, CrashAfter, Holds, SameHome;
    assert Progress(g, s, s.procs[p].k);
    NextCrashPoint(s.base, Plan(g, s), s.procs[p].k);
    assert Plan(g, t) == Plan(g, s);
    SameHomeSelf(g, s.view);
  }

  lemma SameHomeSelf(g: Geometry, d: Disk)
    ensures SameHome(g, d, d)
  {
  }

  /** What CommitCrash needs of a state in which commit runs. */
  lemma PlanReady(g: Geometry, s: State)
    requires Contents(g, s) && Counts(s) && s.committing && s.lh != []
    ensures CommitReady(g, s.lh, s.base, s.view)
  {
    hide Sum;
    NothingDirty(s);
  }

  lemma ContentsFinish(g: Geometry, s: State, t: State, p: nat)
    requires Contents(g, s) && Counts(s) && Finish(g, s, t, p)
    ensures Contents(g, t)
    ensures SameHome(g, t.view, t.disk) && SameHome(g, t.stable, t.view)
  {
    hide Sum, CrashAfter;
    OnlyOneCommits(s, p);
    NothingDirty(s);
    NobodyActive(s.procs);
    FinishedHome(g, s, s.procs[p].k);
    NothingListed(g, s);
    hide Contents, Counts, TxOk, Holds, Progress, Plan, CommitWrites, SameHome;
    assert forall q :: 0 <= q < |t.procs| ==> !t.procs[q].InOp();
    QuietContents(g, t);
    SameHomeTrans(g, t.stable, t.view, t.disk);
  }

  lemma NothingListed(g: Geometry, s: State)
    requires Contents(g, s)
    ensures TxOk(g, |s.disk|, []) && |s.view| == |s.base| == |s.disk|
  {
  }

  /** With nothing running, the disk as the cache shows it is all there is to say. */
  lemma QuietContents(g: Geometry, t: State)
    requires TxOk(g, |t.disk|, []) && t.lh == [] && !t.committing && |t.view| == |t.base| == |t.disk|
    requires Holds(g, t.disk, t.disk) && SameHome(g, t.view, t.disk) && SameHome(g, t.stable, t.view)
    requires forall q :: 0 <= q < |t.procs| ==> !t.procs[q].InOp()
    ensures Contents(g, t)
  {
    hide TxOk, Holds;
  }

  lemma SameHomeTrans(g: Geometry, d: Disk, e: Disk, f: Disk)
    requires SameHome(g, d, e) && SameHome(g, e, f)
    ensures SameHome(g, d, f)
  {
  }

  lemma FinishedHome(g: Geometry, s: State, k: nat)
    requires Contents(g, s) && Counts(s) && s.committing && Progress(g, s, k) && k == |Plan(g, s)|
    ensures Holds(g, s.disk, s.disk) && SameHome(g, s.view, s.disk) && SameHome(g, s.stable, s.view)
  {
    hide Sum, Logical;
    NothingDirty(s);
    if s.lh == [] {
      StartOfPlan(g, s);
    } else {
      PlanReady(g, s);
      CommitCrash(g, s.lh, s.base, s.view, k);
      assert k == 2 * |s.lh| + 2;
    }
  }

  // ----- every run

  lemma StepKeeps(g: Geometry, s: State, t: State)
    requires SafeSize(g) && Counts(s) && Contents(g, s) && Step(g, s, t)
    ensures Counts(t) && Contents(g, t)
    ensures t.stable == s.stable || (t.stable == s.view && s.outstanding == 0)
  {
    hide Counts, Contents, Sum;
    var p: nat :| StepBy(g, s, t, p);
    if End(s, t, p) {
      CountsWaking(g, s, t, p);
      ContentsEnd(g, s, t, p);
    } else if Finish(g, s, t, p) {
      CountsWaking(g, s, t, p);
      ContentsFinish(g, s, t, p);
    } else {
      CountsLocal(g, s, t, p);
      if Append(s, t, p) {
        ContentsAppend(g, s, t, p);
      } else if WriteBlock(g, s, t, p) {
        ContentsWrite(g, s, t, p);
        CommitterIsAlone(s, p);
      } else if b: nat, data: Block :| Change(g, s, t, p, b, data) {
        ContentsChange(g, s, t, p, b, data);
      } else {
        ContentsQuiet(g, s, t, p);
      }
    }
  }

  /** commit runs with no operation outstanding and no other commit. */
  lemma CommitterIsAlone(s: State, p: nat)
    requires Counts(s) && p < |s.procs| && s.procs[p].Committing?
    ensures s.committing && s.outstanding == 0
    ensures forall q :: 0 <= q < |s.procs| ==> !s.procs[q].InOp() && (s.procs[q].Committing? ==> q == p)
  {
    OnlyOneCommits(s, p);
    NobodyActive(s.procs);
  }

  lemma {:induction false} RunKeeps(g: Geometry, tr: seq<State>, i: nat)
    requires SafeSize(g) && Run(g, tr) && i < |tr|
    ensures Counts(tr[i]) && Contents(g, tr[i])
    ensures exists j :: 0 <= j <= i && tr[j].outstanding == 0 && tr[i].stable == tr[j].view
  {
    hide Counts, Contents, Step;
    if i == 0 {
      CountsInit(g, tr[0]);
      ContentsInit(g, tr[0]);
    } else {
      RunKeeps(g, tr, i - 1);
      assert Step(g, tr[i - 1], tr[i]);
      StepKeeps(g, tr[i - 1], tr[i]);
    }
  }

  /** The disk of a reachable state means its stable contents. */
  lemma DiskMeansStable(g: Geometry, s: State)
    requires Counts(s) && Contents(g, s)
    ensures Means(g, s.disk, s.stable)
  {
    hide Sum, CrashAfter, CommitWrites;
    if s.committing {
      SumPositive(CommitOf, s.procs);
      var p :| 0 <= p < |s.procs| && CommitOf(s.procs[p]) > 0;
      if s.lh == [] {
        StartOfPlan(g, s);
        assert Plan(g, s) == [] by { EmptyPlan(g, s); }
      } else {
        PlanReady(g, s);
        CommitCrash(g, s.lh, s.base, s.view, s.procs[p].k);
      }
    }
  }

  lemma EmptyPlan(g: Geometry, s: State)
    requires s.lh == [] && TxOk(g, |s.view|, s.lh) && g.start < |s.base| && |s.base[g.start]| == WORDS
    ensures Plan(g, s) == []
  {
  }

  /**
   Power may fail in any state of any run, and recovery may be cut off any number of
   times: the home blocks come back as the cache showed them at one moment of that run at
   which no operation was in progress.
   */
  lemma CrashAnywhere(g: Geometry, tr: seq<State>, i: nat, ks: seq<nat>)
    requires SafeSize(g) && Run(g, tr) && i < |tr|
    ensures WellFormed(g, tr[i].disk)
    ensures exists j :: 0 <= j <= i && tr[j].outstanding == 0
                        && Holds(g, Recovered(g, AfterCrashes(g, tr[i].disk, ks)), tr[j].view)
  {
    hide Counts, Contents, Step, Holds;
    RunKeeps(g, tr, i);
    DiskMeansStable(g, tr[i]);
    RecoversTo(g, tr[i].disk, tr[i].stable, ks);
  }

  lemma RecoversTo(g: Geometry, d: Disk, home: Disk, ks: seq<nat>)
    requires Means(g, d, home)
    ensures Holds(g, Recovered(g, AfterCrashes(g, d, ks)), home)
  {
    RecoveryInstalls(g, d, ks);
  }

  /** Once every operation has ended and its commit is through, nothing it did can be lost. */
  lemma NothingPending(g: Geometry, tr: seq<State>, i: nat, ks: seq<nat>)
    requires SafeSize(g) && Run(g, tr) && i < |tr|
    requires tr[i].outstanding == 0 && !tr[i].committing
    ensures WellFormed(g, tr[i].disk)
    ensures Holds(g, Recovered(g, AfterCrashes(g, tr[i].disk, ks)), tr[i].view)
  {
    hide Step;
    RunKeeps(g, tr, i);
    NothingDirty(tr[i]);
    RecoversTo(g, tr[i].disk, tr[i].view, ks);
  }

  /**
   No panic of log.c is reachable by a process inside an operation, with a log that holds
   all reservations: log_write is never outside a transaction, end_op never finds a commit
   running, log_write with new blocks left to log never finds the log full, and the slot
   it appends to exists although its guard was read before taking the lock.
   */
  lemma NoPanic(g: Geometry, tr: seq<State>, i: nat, p: nat)
    requires SafeSize(g) && Run(g, tr) && i < |tr| && p < |tr[i].procs| && tr[i].procs[p].InOp()
    ensures tr[i].outstanding >= 1 && !tr[i].committing
    ensures tr[i].procs[p].budget > 0 ==> !LogFull(g, tr[i])
    ensures tr[i].procs[p].Checked? && tr[i].procs[p].b !in tr[i].lh ==> |tr[i].lh| < LOGSIZE
  {
    RunKeeps(g, tr, i);
    OpExcludesCommit(tr[i], p);
    SumUpdate(BudgetOf, tr[i].procs, p, Outside);
  }

  /**
   The one case left: log_write of a block that is listed already panics too when the log is
   full, and that is possible only once every running operation has used up its share.
   */
  lemma FullMeansSpent(g: Geometry, tr: seq<State>, i: nat)
    requires SafeSize(g) && Run(g, tr) && i < |tr|
    ensures LogFull(g, tr[i]) <==> |tr[i].lh| == LOGSIZE
    ensures LogFull(g, tr[i]) ==> forall p :: 0 <= p < |tr[i].procs| ==> tr[i].procs[p].Budget() == 0
  {
    RunKeeps(g, tr, i);
    forall p | 0 <= p < |tr[i].procs|
      ensures tr[i].procs[p].Budget() <= LOGSIZE - |tr[i].lh|
    {
      SumUpdate(BudgetOf, tr[i].procs, p, Outside);
    }
  }

  /** A process asleep in begin_op never waits for nobody, and end_op and commit leave no process asleep. */
  lemma SleeperHasWaker(g: Geometry, tr: seq<State>, i: nat, p: nat)
    requires SafeSize(g) && Run(g, tr) && i < |tr| && p < |tr[i].procs| && tr[i].procs[p].Asleep?
    ensures exists q :: 0 <= q < |tr[i].procs| && (tr[i].procs[q].InOp() || tr[i].procs[q].Committing?)
    ensures forall t, q: nat :: End(tr[i], t, q) || Finish(g, tr[i], t, q) ==>
              t.committing || forall r :: 0 <= r < |t.procs| ==> !t.procs[r].Asleep?
  {
    RunKeeps(g, tr, i);
    var s := tr[i];
    if s.committing {
      SumPositive(CommitOf, s.procs);
    } else {
      SumPositive(OpOf, s.procs);
    }
    forall t, q: nat | End(s, t, q) || Finish(g, s, t, q)
      ensures t.committing || forall r :: 0 <= r < |t.procs| ==> !t.procs[r].Asleep?
    {
      CountsWaking(g, s, t, q);
    }
  }

  // ----- what a process can do next

  /** The counting invariant needs no size of log. */
  lemma {:induction false} RunCounts(g: Geometry, tr: seq<State>, i: nat)
    requires Run(g, tr) && i < |tr|
    ensures Counts(tr[i])
  {
    hide Counts;
    if i == 0 {
      CountsInit(g, tr[0]);
    } else {
      RunCounts(g, tr, i - 1);
      assert Step(g, tr[i - 1], tr[i]);
      var p: nat :| StepBy(g, tr[i - 1], tr[i], p);
      if End(tr[i - 1], tr[i], p) || Finish(g, tr[i - 1], tr[i], p) {
        CountsWaking(g, tr[i - 1], tr[i], p);
      } else {
        CountsLocal(g, tr[i - 1], tr[i], p);
      }
    }
  }

  /** The processes inside an operation. */
  function Inside(procs: seq<Phase>): (r: set<nat>)
    ensures forall p: nat :: p in r <==> p < |procs| && (procs[p].Active? || procs[p].Checked?)
  {
    set p: nat | p < |procs| && (procs[p].Active? || procs[p].Checked?)
  }

  lemma {:induction false} CountInside(procs: seq<Phase>)
    ensures |Inside(procs)| == Sum(OpOf, procs)
  {
    if procs == [] {
      assert Inside(procs) == {};
    } else {
      var n := |procs| - 1;
      CountInside(procs[..n]);
      if procs[n].InOp() {
        assert Inside(procs) == Inside(procs[..n]) + {n};
      } else {
        assert Inside(procs) == Inside(procs[..n]);
      }
    }
  }

  lemma CommitterThere(s: State)
    requires Counts(s)
    ensures s.committing <==> exists q :: 0 <= q < |s.procs| && s.procs[q].Committing?
  {
    if s.committing { SumPositive(CommitOf, s.procs); }
    forall q | 0 <= q < |s.procs| && s.procs[q].Committing?
      ensures s.committing
    {
      CommitterIsAlone(s, q);
    }
  }

  /** Nobody commits, and the blocks listed leave room for all operations inside and one more. */
  ghost predicate Room(s: State) {
    && (forall q :: 0 <= q < |s.procs| ==> !s.procs[q].Committing?)
    && |s.lh| + MAXOPBLOCKS * (|Inside(s.procs)| + 1) <= LOGSIZE
  }

  /**
   begin_op lets an operation in exactly when nobody commits and the blocks listed leave room
   for the operations inside and one more; otherwise the process goes to sleep. Nothing else
   changes but the count.
   */
  lemma Admission(g: Geometry, tr: seq<State>, i: nat, p: nat, t: State)
    requires Run(g, tr) && i < |tr| && p < |tr[i].procs| && tr[i].procs[p].Trying?
    ensures StepBy(g, tr[i], t, p) <==>
              t == if Room(tr[i])
                   then tr[i].(procs := tr[i].procs[p := Active(MAXOPBLOCKS, {})],
                               outstanding := tr[i].outstanding + 1)
                   else tr[i].(procs := tr[i].procs[p := Asleep])
  {
    RunCounts(g, tr, i);
    CountInside(tr[i].procs);
    CommitterThere(tr[i]);
    hide Sum, CommitWrites;
  }

  /**
   A process leaves its operation exactly when it has logged all it changed: the last one
   commits, another wakes all.
   */
  lemma Leaving(g: Geometry, tr: seq<State>, i: nat, p: nat)
    requires Run(g, tr) && i < |tr| && p < |tr[i].procs| && tr[i].procs[p].Active?
    ensures (exists t :: StepBy(g, tr[i], t, p) && !t.procs[p].InOp()) <==> tr[i].procs[p].dirty == {}
    ensures forall t :: StepBy(g, tr[i], t, p) && !t.procs[p].InOp() ==>
              && t.lh == tr[i].lh && t.view == tr[i].view && t.disk == tr[i].disk
              && if Inside(tr[i].procs) == {p}
                 then t.committing && t.procs == tr[i].procs[p := Committing(0)]
                 else !t.committing && t.procs[p] == Outside && |t.procs| == |tr[i].procs|
                      && forall q :: 0 <= q < |t.procs| && q != p ==>
                           t.procs[q] == if tr[i].procs[q].Asleep? then Trying else tr[i].procs[q]
  {
    var s := tr[i];
    RunCounts(g, tr, i);
    OpExcludesCommit(s, p);
    LastOne(s, p);
    hide Sum, CommitWrites, Inside;
    if s.procs[p].dirty == {} {
      var out := s.outstanding - 1;
      var t := if out == 0
               then s.(outstanding := out, committing := true, procs := s.procs[p := Committing(0)], base := s.disk)
               else s.(outstanding := out, procs := WakeAll(s.procs[p := Outside]));
      assert End(s, t, p) && StepBy(g, s, t, p);
    }
  }

  lemma LastOne(s: State, p: nat)
    requires Counts(s) && p < |s.procs| && s.procs[p].InOp()
    ensures s.outstanding == 1 <==> Inside(s.procs) == {p}
  {
    CountInside(s.procs);
    hide Sum;
    assert {p} <= Inside(s.procs);
    if s.outstanding == 1 {
      assert |Inside(s.procs) - {p}| == 0;
    }
  }

  /** An operation may change any home block at any time, and outside one a process may begin. */
  lemma Changing(g: Geometry, s: State, p: nat, b: nat, data: Block)
    requires p < |s.procs| && b < |s.view| && !g.InLog(b)
    ensures s.procs[p].Active? ==>
              exists t :: StepBy(g, s, t, p) && t.view == s.view[b := data] && t.lh == s.lh
                          && t.procs[p] == Active(s.procs[p].budget, s.procs[p].dirty + {b})
    ensures s.procs[p].Outside? ==> forall t :: StepBy(g, s, t, p) <==> t == s.(procs := s.procs[p := Trying])
    ensures s.procs[p].Asleep? ==> forall t :: !StepBy(g, s, t, p)
  {
    if s.procs[p].Active? {
      var t := s.(view := s.view[b := data],
                  procs := s.procs[p := Active(s.procs[p].budget, s.procs[p].dirty + {b})]);
      assert Change(g, s, t, p, b, data);
      assert StepBy(g, s, t, p);
    }
  }

  /**
   log_write of a home block passes its guards exactly while fewer than LOGSIZE blocks are
   listed, the operation's share counting only for a new one.
   */
  lemma Logging(g: Geometry, tr: seq<State>, i: nat, p: nat, b: nat)
    requires SafeSize(g) && Run(g, tr) && i < |tr| && p < |tr[i].procs| && tr[i].procs[p].Active?
    requires b < |tr[i].view| && !g.InLog(b)
    ensures var s := tr[i];
            (exists t :: StepBy(g, s, t, p) && t.procs[p] == Checked(s.procs[p].budget, s.procs[p].dirty, b)) <==>
              (s.procs[p].budget > 0 || b in s.lh) && |s.lh| < LOGSIZE
  {
    var s := tr[i];
    RunKeeps(g, tr, i);
    OpExcludesCommit(s, p);
    hide Counts, Contents, CommitWrites, Sum;
    var t := s.(procs := s.procs[p := Checked(s.procs[p].budget, s.procs[p].dirty, b)]);
    if (s.procs[p].budget > 0 || b in s.lh) && |s.lh| < LOGSIZE {
      assert Guard(g, s, t, p, b);
      assert StepBy(g, s, t, p);
    }
  }

  /** Past them it lists the block, once, at the end, and there is always room for it. */
  lemma Listing(g: Geometry, tr: seq<State>, i: nat, p: nat, t: State)
    requires SafeSize(g) && Run(g, tr) && i < |tr| && p < |tr[i].procs| && tr[i].procs[p].Checked?
    ensures var s, c := tr[i], tr[i].procs[p];
            StepBy(g, s, t, p) <==>
              && t == s.(lh := t.lh, procs := t.procs) && |t.lh| <= LOGSIZE
              && t.lh == (if c.b in s.lh then s.lh else s.lh + [c.b])
              && t.procs == s.procs[p := Active(if c.b in s.lh || c.budget == 0 then c.budget else c.budget - 1,
                                                c.dirty - {c.b})]
  {
    RunKeeps(g, tr, i);
    NoPanic(g, tr, i, p);
    hide Contents, CommitWrites, Sum;
  }

  /** commit can always go on: by another block write, or by clearing the header for everybody. */
  lemma CommitGoesOn(g: Geometry, tr: seq<State>, i: nat, p: nat)
    requires SafeSize(g) && Run(g, tr) && i < |tr| && p < |tr[i].procs| && tr[i].procs[p].Committing?
    ensures exists t :: StepBy(g, tr[i], t, p)
    ensures forall t :: StepBy(g, tr[i], t, p) ==>
              t.procs[p] == Committing(tr[i].procs[p].k + 1) || (t.procs[p] == Outside && t.lh == [] && !t.committing)
  {
    hide Counts, Contents, Run, StepBy;
    RunKeeps(g, tr, i);
    CommitMoves(g, tr[i], p);
  }

  lemma CommitMoves(g: Geometry, s: State, p: nat)
    requires Counts(s) && Contents(g, s) && p < |s.procs| && s.procs[p].Committing?
    ensures exists t :: StepBy(g, s, t, p)
    ensures forall t :: StepBy(g, s, t, p) ==>
              t.procs[p] == Committing(s.procs[p].k + 1) || (t.procs[p] == Outside && t.lh == [] && !t.committing)
  {
    hide Counts, Contents, Plan, TxOk;
    InPlan(g, s, p);
    var k := s.procs[p].k;
    if k < |Plan(g, s)| {
      var w := Plan(g, s)[k];
      var t := s.(disk := s.disk[w.blockno := w.data], procs := s.procs[p := Committing(k + 1)],
                  stable := if k == |s.lh| then s.view else s.stable);
      assert WriteBlock(g, s, t, p);
      assert StepBy(g, s, t, p);
    } else {
      var t := s.(lh := [], committing := false, procs := WakeAll(s.procs[p := Outside]));
      assert Finish(g, s, t, p);
      assert StepBy(g, s, t, p);
    }
  }

  lemma InPlan(g: Geometry, s: State, p: nat)
    requires Counts(s) && Contents(g, s) && p < |s.procs| && s.procs[p].Committing?
    ensures TxOk(g, |s.view|, s.lh) && g.start < |s.base| && |s.base[g.start]| == WORDS
    ensures s.procs[p].k <= |Plan(g, s)| && forall j :: 0 <= j < |Plan(g, s)| ==> Plan(g, s)[j].blockno < |s.disk|
  {
    OnlyOneCommits(s, p);
    hide Sum, CommitWrites, CrashAfter, Holds, SameHome;
    assert Progress(g, s, s.procs[p].k);
  }

  // ----- why the log must hold LOGSIZE blocks

  /** Some run ends in s. */
  ghost predicate Reachable(g: Geometry, s: State) {
    exists tr :: Run(g, tr) && tr[|tr| - 1] == s
  }

  lemma ReachStep(g: Geometry, s: State, t: State, p: nat)
    requires Reachable(g, s) && StepBy(g, s, t, p)
    ensures Reachable(g, t)
  {
    hide StepBy, Init;
    var tr :| Run(g, tr) && tr[|tr| - 1] == s;
    assert Step(g, s, t);
    var tr' := tr + [t];
    assert forall i, j :: 0 <= i < |tr'| && j == i + 1 && j < |tr'| ==> Step(g, tr'[i], tr'[j]);
    assert Run(g, tr');
  }

  function Min(a: int, b: int): int { if a < b then a else b }
  function Clamp(a: int): nat { if a < 0 then 0 else a }

  /** Three operations under way that have logged the first k of the blocks bs: a each, but the last up to ten. */
  function Filled(d: Disk, bs: seq<int>, a: nat, k: nat): State
    requires a <= 10 && k <= 2 * a + 10 && k <= |bs|
  {
    State(bs[..k], 3, false,
          [Active(10 - Min(k, a), {}), Active(10 - Min(Clamp(k - a), a), {}),
           Active(10 - Min(Clamp(k - 2 * a), 10), {})],
          d, d, d, d)
  }

  function Start(d: Disk): State {
    State([], 0, false, [Outside, Outside, Outside], d, d, d, d)
  }

  lemma StartedThree(g: Geometry, d: Disk)
    requires Holds(g, d, d)
    ensures Reachable(g, Filled(d, [], 10, 0))
  {
    var s0 := Start(d);
    assert Run(g, [s0]);
    assert [s0][|[s0]| - 1] == s0;
    StartOne(g, s0, 0);
    var s1 := s0.(outstanding := 1, procs := [Active(MAXOPBLOCKS, {}), Outside, Outside]);
    assert s1 == s0.(outstanding := 1, procs := s0.procs[0 := Active(MAXOPBLOCKS, {})]);
    StartOne(g, s1, 1);
    var s2 := s1.(outstanding := 2, procs := [Active(MAXOPBLOCKS, {}), Active(MAXOPBLOCKS, {}), Outside]);
    assert s2 == s1.(outstanding := 2, procs := s1.procs[1 := Active(MAXOPBLOCKS, {})]);
    StartOne(g, s2, 2);
    assert Filled(d, [], 10, 0) == s2.(outstanding := 3, procs := s2.procs[2 := Active(MAXOPBLOCKS, {})]);
  }

  lemma StartOne(g: Geometry, s: State, p: nat)
    requires Reachable(g, s) && p < |s.procs| && s.procs[p].Outside? && !MustWait(s)
    ensures Reachable(g, s.(outstanding := s.outstanding + 1, procs := s.procs[p := Active(MAXOPBLOCKS, {})]))
  {
    hide Reachable;
    var t := s.(procs := s.procs[p := Trying]);
    assert Enter(s, t, p);
    ReachStep(g, s, t, p);
    var u := s.(outstanding := s.outstanding + 1, procs := s.procs[p := Active(MAXOPBLOCKS, {})]);
    assert t.procs[p := Active(MAXOPBLOCKS, {})] == u.procs;
    assert Begin(t, u, p);
    ReachStep(g, t, u, p);
  }

  /** log_write by process p of a block not listed yet. */
  lemma LogOne(g: Geometry, s: State, p: nat, b: nat)
    requires Reachable(g, s) && p < |s.procs| && s.procs[p].Active? && s.procs[p].budget > 0 && s.procs[p].dirty == {}
    requires b < |s.view| && !g.InLog(b) && b !in s.lh && !LogFull(g, s) && s.outstanding >= 1
    ensures Reachable(g, s.(lh := s.lh + [b], procs := s.procs[p := Active(s.procs[p].budget - 1, {})]))
  {
    hide Reachable;
    var t := s.(procs := s.procs[p := Checked(s.procs[p].budget, {}, b)]);
    assert Guard(g, s, t, p, b);
    ReachStep(g, s, t, p);
    var u := s.(lh := s.lh + [b], procs := s.procs[p := Active(s.procs[p].budget - 1, {})]);
    assert u.procs == t.procs[p := Active(s.procs[p].budget - 1, {})];
    assert t.procs[p].dirty - {b} == {};
    assert Append(t, u, p);
    ReachStep(g, t, u, p);
  }

  lemma {:induction false} FilledReachable(g: Geometry, d: Disk, bs: seq<int>, a: nat, k: nat)
    requires Holds(g, d, d) && 1 <= a <= 10 && k <= 2 * a + 10 && k <= |bs| && k <= g.size - 1 && k <= LOGSIZE
    requires Distinct(bs) && forall i :: 0 <= i < |bs| ==> 0 <= bs[i] < |d| && !g.InLog(bs[i])
    ensures Reachable(g, Filled(d, bs, a, k))
  {
    hide Reachable;
    if k == 0 {
      StartedThree(g, d);
      assert bs[..0] == [];
      assert Filled(d, [], 10, 0) == Filled(d, bs, a, 0);
    } else {
      FilledReachable(g, d, bs, a, k - 1);
      var s := Filled(d, bs, a, k - 1);
      FilledNext(d, bs, a, k);
      assert bs[k - 1] !in bs[..k - 1];
      LogOne(g, s, Logger(a, k - 1), bs[k - 1]);
    }
  }

  /** Who logs block k. */
  function Logger(a: nat, k: nat): nat { if k < a then 0 else if k < 2 * a then 1 else 2 }

  lemma FilledNext(d: Disk, bs: seq<int>, a: nat, k: nat)
    requires 1 <= a <= 10 && 0 < k <= 2 * a + 10 && k <= |bs|
    ensures var s, p := Filled(d, bs, a, k - 1), Logger(a, k - 1);
            && s.procs[p].budget > 0
            && Filled(d, bs, a, k) ==
               s.(lh := s.lh + [bs[k - 1]], procs := s.procs[p := Active(s.procs[p].budget - 1, {})])
  {
    assert bs[..k] == bs[..k - 1] + [bs[k - 1]];
  }

  /**
   A log that holds all reservations does get full with operations inside: three of them list
   ten blocks each, and then one changes a listed block once more. Its log_write, which would
   only absorb, panics, and without it the operation cannot end.
   */
  lemma FullReachable(g: Geometry, d: Disk, bs: seq<int>, i: nat, data: Block)
    requires SafeSize(g) && Holds(g, d, d) && i < |bs| == LOGSIZE && Distinct(bs)
    requires forall k :: 0 <= k < |bs| ==> 0 <= bs[k] < |d| && !g.InLog(bs[k])
    ensures exists s ::
              && Reachable(g, s) && s.lh == bs && LogFull(g, s) && s.outstanding == 3
              && s.procs == [Active(0, {bs[i]}), Active(0, {}), Active(0, {})] && s.view == d[bs[i] := data]
              && (forall t, b: nat :: !Guard(g, s, t, 0, b)) && forall t :: !End(s, t, 0)
  {
    hide Reachable;
    FilledReachable(g, d, bs, 10, LOGSIZE);
    var s := Filled(d, bs, 10, LOGSIZE);
    assert s.lh == bs && s.procs == [Active(0, {}), Active(0, {}), Active(0, {})];
    var t := s.(view := d[bs[i] := data], procs := s.procs[0 := Active(0, {bs[i]})]);
    assert s.procs[0].dirty + {bs[i]} == {bs[i]};
    assert Change(g, s, t, 0, bs[i], data);
    ReachStep(g, s, t, 0);
  }

  /**
   A log with fewer than LOGSIZE data blocks, such as the one mkfs makes (nlog == LOGSIZE,
   so LOGSIZE - 1 data blocks), is too small: three operations, none of which logs more
   than MAXOPBLOCKS blocks, get log_write's "too big a transaction" panic, and, because
   the guard is read before the lock is taken, can even list one block more than the log has.
   */
  lemma SmallLogOverflows(g: Geometry, d: Disk, bs: seq<int>)
    requires 2 <= g.size && !SafeSize(g) && Holds(g, d, d)
    requires |bs| == g.size && Distinct(bs)
    requires forall i :: 0 <= i < |bs| ==> 0 <= bs[i] < |d| && !g.InLog(bs[i])
    ensures exists s, p :: Reachable(g, s) && 0 <= p < |s.procs| && s.procs[p].Active? && s.procs[p].budget > 0 &&
              LogFull(g, s)
    ensures exists s :: Reachable(g, s) && |s.lh| > g.size - 1
  {
    hide Reachable;
    var m := g.size - 1;
    FilledReachable(g, d, bs, 9, m - 1);
    var s := Filled(d, bs, 9, m - 1);
    var c0, c1 := s.procs[0].budget, s.procs[1].budget;
    // one operation fills the log; another still has blocks left to log
    LogOne(g, s, 0, bs[m - 1]);
    var full := s.(lh := s.lh + [bs[m - 1]], procs := s.procs[0 := Active(c0 - 1, {})]);
    assert LogFull(g, full) && full.procs[1].budget > 0;
    // two operations pass the guard before either appends
    var t1 := s.(procs := s.procs[0 := Checked(c0, {}, bs[m - 1])]);
    assert Guard(g, s, t1, 0, bs[m - 1]);
    ReachStep(g, s, t1, 0);
    var t2 := t1.(procs := t1.procs[1 := Checked(c1, {}, bs[m])]);
    assert Guard(g, t1, t2, 1, bs[m]);
    ReachStep(g, t1, t2, 1);
    var t3 := t2.(lh := t2.lh + [bs[m - 1]], procs := t2.procs[0 := Active(c0 - 1, {})]);
    assert t2.procs[0].dirty - {t2.procs[0].b} == {} && t2.procs[0].b == bs[m - 1] && bs[m - 1] !in t2.lh;
    assert Append(t2, t3, 0);
    ReachStep(g, t2, t3, 0);
    var t4 := t3.(lh := t3.lh + [bs[m]], procs := t3.procs[1 := Active(c1 - 1, {})]);
    assert t3.procs[1].dirty - {t3.procs[1].b} == {} && bs[m] !in t3.lh;
    assert Append(t3, t4, 1);
    ReachStep(g, t3, t4, 1);
    assert |t4.lh| > g.size - 1;
  }
}
