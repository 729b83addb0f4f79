/**
 Recovery critical sections of kernel/recovery_locking.c: a counter per flag, a history of
 at most HISTORY nested flags per process, and the recovery locks. The check of a recovery
 lock and the increment behind it, both under lk, are one step.
 */
module Rcs {
  import opened Params

  const LASTFLAG := 8
  const NFLAGS := LASTFLAG + NBUF + NFILE + NINODE + 1
  const HISTORY := 5
  const NONE := -1

  // ----- flags of nodes

  datatype Node = Buf(i: nat) | File(i: nat) | Inode(i: nat) {
    predicate Exists() { i < match this case Buf(_) => NBUF case File(_) => NFILE case Inode(_) => NINODE }

    /** init_recovery_lock_idx */
    function Flag(): nat {
      match this
      case Buf(i) => LASTFLAG + i + 1
      case File(i) => LASTFLAG + NBUF + i
      case Inode(i) => LASTFLAG + NBUF + NFILE + i
    }
  }

  /** Two nodes share a flag just when they are the last buffer and the first file. */
  lemma SharedFlag(m: Node, n: Node)
    requires m.Exists() && n.Exists() && m != n
    ensures LASTFLAG < m.Flag() < NFLAGS
    ensures m.Flag() == if m.Buf? then 9 + m.i else if m.File? then 38 + m.i else 138 + m.i
    ensures m.Flag() == n.Flag() <==> {m, n} == {Buf(NBUF - 1), File(0)}
  {
    if m.Flag() == n.Flag() {
      assert m.Buf? || n.Buf?;
    }
    if {m, n} == {Buf(NBUF - 1), File(0)} {
      assert m in {m, n} && n in {m, n};
    }
  }

  // ----- histories

  /** history_idx: the nested flags, then zeros. */
  predicate Stacked(h: seq<nat>) {
    |h| == HISTORY && forall i, j :: 0 <= i < j < HISTORY && h[i] == 0 ==> h[j] == 0
  }

  /** Every entry is a flag. */
  predicate Flags(h: seq<nat>) { forall k :: 0 <= k < |h| ==> h[k] < NFLAGS }

  function Depth(h: seq<nat>): (d: nat)
    ensures d <= |h| && (d < |h| ==> h[d] == 0) && forall i :: 0 <= i < d ==> h[i] != 0
  {
    if h == [] || h[0] == 0 then 0 else 1 + Depth(h[1..])
  }

  /** The flags a process is inside, the innermost last. */
  function Nest(h: seq<nat>): seq<nat> { h[..Depth(h)] }

  function Count(s: seq<nat>, f: nat): nat {
    if s == [] then 0 else (if s[|s| - 1] == f then 1 else 0) + Count(s[..|s| - 1], f)
  }

  /** s without the last f. */
  function RemoveLast(s: seq<nat>, f: nat): seq<nat> {
    if s == [] then [] else if s[|s| - 1] == f then s[..|s| - 1]
    else RemoveLast(s[..|s| - 1], f) + [s[|s| - 1]]
  }

  /** Leaving the section entered last undoes the entry. */
  lemma EnterThenExit(s: seq<nat>, f: nat)
    ensures RemoveLast(s + [f], f) == s
  {
    assert (s + [f])[..|s|] == s;
  }

  lemma {:induction false} RemoveCount(s: seq<nat>, f: nat, g: nat)
    ensures Count(RemoveLast(s, f), g) == Count(s, g) - if f == g && f in s then 1 else 0
  {
    if s == [] {
    } else {
      var n := |s| - 1;
      RemoveCount(s[..n], f, g);
      assert s == s[..n] + [s[n]];
      if s[n] != f {
        var r := RemoveLast(s[..n], f);
        assert (r + [s[n]])[..|r|] == r;
      }
    }
  }

  lemma NotInPrefix(s: seq<nat>, f: nat, m: nat)
    requires f !in s && m <= |s|
    ensures f !in s[..m]
  {
  }

  /** RemoveLast by the index of the last f. */
  lemma {:induction false} RemoveAt(s: seq<nat>, f: nat, k: nat)
    requires k < |s| && s[k] == f && f !in s[k + 1..]
    ensures RemoveLast(s, f) == s[..k] + s[k + 1..]
  {
    var n := |s| - 1;
    if k == n {
      assert s[k + 1..] == [];
    } else {
      assert s[n] == s[k + 1..][n - k - 1];
      assert s[..n][k + 1..] == s[k + 1..][..n - k - 1];
      NotInPrefix(s[k + 1..], f, n - k - 1);
      RemoveAt(s[..n], f, k);
    }
  }

  lemma {:induction false} RemoveNone(s: seq<nat>, f: nat)
    requires f !in s
    ensures RemoveLast(s, f) == s
  {
    if s != [] {
      var n := |s| - 1;
      assert s == s[..n] + [s[n]];
      RemoveNone(s[..n], f);
    }
  }

  lemma CountPush(s: seq<nat>, f: nat, g: nat)
    ensures Count(s + [f], g) == Count(s, g) + if f == g then 1 else 0
  {
    assert (s + [f])[..|s|] == s;
  }

  lemma DepthIs(h: seq<nat>, d: nat)
    requires d <= |h| && (d < |h| ==> h[d] == 0) && forall i :: 0 <= i < d ==> h[i] != 0
    ensures Depth(h) == d
  {
  }

  /** add_rcs_history on one array: the first empty slot gets the flag; a full history forgets it. */
  method Add(h: seq<nat>, flag: nat) returns (r: seq<nat>)
    requires Stacked(h) && flag != 0
    ensures Stacked(r) && Nest(r) == if Depth(h) < HISTORY then Nest(h) + [flag] else Nest(h)
    ensures Flags(h) && flag < NFLAGS ==> Flags(r)
  {
    r := h;
    var i := 0;
    while i < HISTORY && r[i] != 0
      invariant 0 <= i <= HISTORY && forall k :: 0 <= k < i ==> h[k] != 0
    {
      i := i + 1;
    }
    DepthIs(h, i);
    if i < HISTORY {
      r := r[i := flag];
      DepthIs(r, i + 1);
    }
  }

  /** h with the flag at `at` taken out and the hole moved up to p. */
  ghost predicate Hole(h: seq<nat>, r: seq<nat>, at: int, p: int) {
    && |h| == |r| == HISTORY && 0 <= at <= p < HISTORY
    && (forall k {:trigger r[k]} :: 0 <= k < HISTORY && k != p ==> r[k] == if at <= k < p then h[k + 1] else h[k])
    && r[p] == 0 && forall k :: 0 <= k <= p ==> h[k] != 0
  }

  /** The hole has reached the top of the stack. */
  lemma Closed(h: seq<nat>, r: seq<nat>, at: int, p: int, flag: nat)
    requires Stacked(h) && flag != 0 && Hole(h, r, at, p) && (p == HISTORY - 1 || h[p + 1] == 0)
    requires h[at] == flag && forall k :: at < k < HISTORY ==> h[k] != flag
    ensures Stacked(r) && flag in Nest(h) && Nest(r) == RemoveLast(Nest(h), flag)
  {
    DepthIs(h, p + 1);
    DepthIs(r, p);
    var s := Nest(h);
    assert s[at] == flag;
    assert flag !in s[at + 1..];
    RemoveAt(s, flag, at);
    var n := s[..at] + s[at + 1..];
    assert |Nest(r)| == |n| == p;
    forall k | 0 <= k < p
      ensures Nest(r)[k] == n[k]
    {
      assert r[k] == if at <= k then h[k + 1] else h[k];
    }
  }

  /**
   del_rcs_history on one array: the last occurrence of the flag goes and the rest closes up.
   When the flag is not there, a full history loses its innermost entry instead.
   */
  method Del(h: seq<nat>, flag: nat) returns (r: seq<nat>)
    requires Stacked(h) && flag != 0
    ensures Stacked(r)
    ensures Nest(r) == if flag in Nest(h) then RemoveLast(Nest(h), flag)
                       else if Depth(h) < HISTORY then Nest(h) else Nest(h)[..HISTORY - 1]
    ensures Flags(h) ==> Flags(r)
  {
    r := h;
    var i := HISTORY - 1;
    while i >= 0 && r[i] != flag
      invariant -1 <= i < HISTORY && forall k :: i < k < HISTORY ==> h[k] != flag
    {
      i := i - 1;
    }
    ghost var at := i;
    if i >= 0 {
      r := r[i := 0];
    }
    r := Close(h, r, at, flag);
  }

  ghost predicate Closing(h: seq<nat>, r: seq<nat>, at: int, i: int) {
    if at < 0 then r == h && forall k :: 0 <= k < i && k < |h| ==> h[k] != 0
    else Hole(h, r, at, if i <= at then at else i)
  }

  /** The second loop of del_rcs_history, and its last assignment. */
  method Close(ghost h: seq<nat>, r0: seq<nat>, ghost at: int, ghost flag: nat) returns (r: seq<nat>)
    requires Stacked(h) && |r0| == HISTORY && flag != 0 && -1 <= at < HISTORY && r0 == if at < 0 then h else h[at := 0]
    requires at >= 0 ==> h[at] == flag
    requires forall k :: at < k < HISTORY ==> h[k] != flag
    ensures Stacked(r)
    ensures Nest(r) == if flag in Nest(h) then RemoveLast(Nest(h), flag)
                       else if Depth(h) < HISTORY then Nest(h) else Nest(h)[..HISTORY - 1]
    ensures Flags(r0) ==> Flags(r)
  {
    hide Nest, RemoveLast;
    r := r0;
    if at >= 0 { AllBefore(h, at); }
    var i := 0;
    while i < HISTORY - 1
      invariant 0 <= i <= HISTORY - 1 && |r| == HISTORY && Closing(h, r, at, i)
      invariant Flags(r0) ==> Flags(r)
    {
      if r[i] == 0 {
        if r[i + 1] == 0 { break; }
        r := r[i := r[i + 1]][i + 1 := 0];
      }
      i := i + 1;
    }
    ghost var q := r;
    r := r[i := 0];
    if at >= 0 {
      assert r == q;
      Closed(h, r, at, if i <= at then at else i, flag);
    } else {
      Untouched(h, r, i, flag);
    }
  }

  /** What the last assignment does when the flag was not found. */
  lemma Untouched(h: seq<nat>, r: seq<nat>, i: int, flag: nat)
    requires Stacked(h) && flag !in h && 0 <= i < HISTORY && r == h[i := 0] && (h[i] == 0 || i == HISTORY - 1)
    requires forall k :: 0 <= k < i ==> h[k] != 0
    ensures Stacked(r) && flag !in Nest(h) && Nest(r) == if Depth(h) < HISTORY then Nest(h) else Nest(h)[..HISTORY - 1]
  {
    DepthIs(h, if h[i] == 0 then i else HISTORY);
    DepthIs(r, i);
    assert forall k :: 0 <= k < Depth(h) ==> Nest(h)[k] == h[k];
  }

  lemma AllBefore(h: seq<nat>, at: int)
    requires Stacked(h) && 0 <= at < HISTORY && h[at] != 0
    ensures forall k :: 0 <= k <= at ==> h[k] != 0
  {
  }

  // ----- counters

  /** A process's entry in rcs_infos; pid 0 for none. */
  datatype Info = Info(pid: nat, history: seq<nat>)

  /** A process and the flags it is inside, the innermost last. */
  datatype Entry = Entry(pid: nat, nest: seq<nat>)

  /** What rcs_infos says of each process. */
  function Listed(infos: seq<Info>): (r: seq<Entry>)
    ensures |r| == |infos|
  {
    seq(|infos|, i requires 0 <= i < |infos| => Entry(infos[i].pid, Nest(infos[i].history)))
  }

  lemma ListedUpdate(infos: seq<Info>, i: nat, x: Info)
    requires i < |infos|
    ensures Listed(infos[i := x]) == Listed(infos)[i := Entry(x.pid, Nest(x.history))]
  {
  }

  /** How often f occurs in the nests of all processes. */
  function Sum(entries: seq<Entry>, f: nat): nat {
    if entries == [] then 0 else Count(entries[|entries| - 1].nest, f) + Sum(entries[..|entries| - 1], f)
  }

  function Total(infos: seq<Info>, f: nat): nat { Sum(Listed(infos), f) }

  lemma {:induction false} SumUpdate(entries: seq<Entry>, i: nat, x: Entry, f: nat)
    requires i < |entries|
    ensures Sum(entries[i := x], f) == Sum(entries, f) - Count(entries[i].nest, f) + Count(x.nest, f)
  {
    hide Count;
    var n := |entries| - 1;
    if i == n {
      assert entries[i := x][..n] == entries[..n];
    } else {
      assert entries[i := x][..n] == entries[..n][i := x];
      SumUpdate(entries[..n], i, x, f);
    }
  }

  lemma TotalUpdate(infos: seq<Info>, i: nat, x: Info, f: nat)
    requires i < |infos|
    ensures Total(infos[i := x], f) == Total(infos, f) - Count(Nest(infos[i].history), f) + Count(Nest(x.history), f)
  {
    hide Nest, Count, Sum;
    ListedUpdate(infos, i, x);
    SumUpdate(Listed(infos), i, Entry(x.pid, Nest(x.history)), f);
  }

  lemma {:induction false} SumEmpty(entries: seq<Entry>, f: nat)
    requires forall k :: 0 <= k < |entries| ==> entries[k].nest == []
    ensures Sum(entries, f) == 0
  {
    if entries != [] {
      SumEmpty(entries[..|entries| - 1], f);
    }
  }

  /** What processes and recoveries do. */
  datatype Event =
    | Arrive(pid: nat)
    | Leave(pid: nat)
    | EnterSection(pid: nat, flag: nat)
    | ExitSection(pid: nat, flag: nat)
    | ExitEvery(pid: nat)
    | Lock(pid: nat, flag: nat)
    | Unlock(pid: nat, flag: nat)
  {
    predicate Known() {
      pid != 0 && (EnterSection? || ExitSection? || Lock? || Unlock? ==> 0 < flag < NFLAGS)
    }
  }

  /** The counters, the holders of the recovery locks, and the nests of the processes. */
  datatype Book = Book(num: seq<int>, holder: seq<int>, entries: seq<Entry>) {
    ghost predicate Good() {
      && |num| == |holder| == NFLAGS
      && (forall i :: 0 <= i < |entries| ==> Nested(entries[i].nest))
      && (forall i, j :: 0 <= i < j < |entries| && entries[i].pid == entries[j].pid ==> entries[i].pid == 0)
    }

    /** Each counter says how often processes are inside its section. */
    ghost predicate InStep() { |num| == NFLAGS && forall f :: 0 < f < NFLAGS ==> num[f] == Sum(entries, f) }

    /** Where the process is listed. */
    function Pos(pid: nat): (i: nat)
      ensures i <= |entries| && (i < |entries| ==> entries[i].pid == pid)
      ensures forall k :: 0 <= k < i ==> entries[k].pid != pid
    {
      First(entries, pid)
    }

    predicate Knows(pid: nat) { Pos(pid) < |entries| }

    function NestOf(pid: nat): seq<nat> { if Knows(pid) then entries[Pos(pid)].nest else [] }

    /** The process has to wait until another gives the flag's recovery lock back. */
    predicate Waits(e: Event)
      requires |holder| == NFLAGS && e.Known()
    {
      match e
      case EnterSection(pid, flag) => holder[flag] != NONE && holder[flag] != pid
      case Lock(_, flag) => holder[flag] != NONE
      case _ => false
    }

    /** The code panics. */
    predicate Stops(e: Event)
      requires |holder| == NFLAGS && e.Known()
    {
      match e
      case Arrive(pid) => Knows(pid)
      case Leave(_) => false
      case EnterSection(pid, _) => !Waits(e) && !Knows(pid)
      case ExitSection(pid, _) => !Knows(pid)
      case ExitEvery(pid) => !Knows(pid)
      case Lock(pid, flag) => holder[flag] == pid
      case Unlock(pid, flag) => holder[flag] != pid
    }

    function Renest(pid: nat, nest: seq<nat>): seq<Entry> {
      if Knows(pid) then entries[Pos(pid) := Entry(pid, nest)] else entries
    }

    /** What the event leaves. */
    function After(e: Event): Book
      requires |num| == |holder| == NFLAGS && e.Known()
    {
      if Waits(e) then this else
      match e
      case Arrive(pid) => this.(entries := if Knows(0) then entries[Pos(0) := Entry(pid, NestOf(0))] else entries)
      case Leave(pid) => this.(entries := if Knows(pid) then entries[Pos(pid) := Entry(0, [])] else entries)
      case EnterSection(pid, flag) => this.(
        num := num[flag := num[flag] + if holder[flag] == NONE then 1 else 0],
        entries := Renest(pid, if |NestOf(pid)| < HISTORY then NestOf(pid) + [flag] else NestOf(pid)))
      case ExitSection(pid, flag) => this.(
        num := num[flag := num[flag] - 1],
        entries := Renest(pid, Popped(NestOf(pid), flag)))
      case ExitEvery(pid) => this.(num := GivenBack(num, NestOf(pid)), entries := Renest(pid, []))
      case Lock(pid, flag) => this.(holder := holder[flag := pid])
      case Unlock(_, flag) => this.(holder := holder[flag := NONE])
    }

    /**
     What an event must do to keep counters and nests in step: an entry is counted and
     recorded, or neither; what is left was entered; a process that ends is in no section.
     */
    predicate Orderly(e: Event)
      requires |holder| == NFLAGS && e.Known()
    {
      match e
      case EnterSection(pid, flag) => Waits(e) || (holder[flag] == pid <==> |NestOf(pid)| == HISTORY)
      case ExitSection(pid, flag) => flag in NestOf(pid)
      case Leave(pid) => NestOf(pid) == []
      case _ => true
    }
  }

  function First(entries: seq<Entry>, pid: nat): (i: nat)
    ensures i <= |entries| && (i < |entries| ==> entries[i].pid == pid)
    ensures forall k :: 0 <= k < i ==> entries[k].pid != pid
  {
    if entries == [] || entries[0].pid == pid then 0 else 1 + First(entries[1..], pid)
  }

  predicate Nested(nest: seq<nat>) { |nest| <= HISTORY && forall k :: 0 <= k < |nest| ==> 0 < nest[k] < NFLAGS }

  /** The nest without the flag; without it, a full history loses its innermost entry. */
  function Popped(nest: seq<nat>, flag: nat): seq<nat> {
    if flag in nest then RemoveLast(nest, flag) else if |nest| < HISTORY then nest else nest[..HISTORY - 1]
  }

  /** The counters less one for each of the HISTORY slots; an empty one names flag 0. */
  function GivenBack(num: seq<int>, nest: seq<nat>): seq<int>
    requires |num| == NFLAGS
  {
    seq(NFLAGS, f requires 0 <= f < NFLAGS => num[f] - if f == 0 then HISTORY - |nest| else Count(nest, f))
  }

  lemma AllGiven(was: seq<int>, num: seq<int>, h: seq<nat>)
    requires |was| == |num| == NFLAGS && Stacked(h) && num[0] == was[0] - (HISTORY - Depth(h))
    requires forall f :: 0 < f < NFLAGS ==> num[f] == was[f] - Count(Nest(h), f)
    ensures num == GivenBack(was, Nest(h))
  {
    NestLength(h);
  }

  /** No event of the run panics. */
  predicate Goes(b: Book, events: seq<Event>)
    requires |b.num| == |b.holder| == NFLAGS && forall k :: 0 <= k < |events| ==> events[k].Known()
  {
    events == [] || (Goes(b, events[..|events| - 1]) && !Final(b, events[..|events| - 1]).Stops(events[|events| - 1]))
  }

  /** The book after the run. */
  function Final(b: Book, events: seq<Event>): (r: Book)
    requires |b.num| == |b.holder| == NFLAGS && forall k :: 0 <= k < |events| ==> events[k].Known()
    ensures |r.num| == |r.holder| == NFLAGS
  {
    if events == [] then b else Final(b, events[..|events| - 1]).After(events[|events| - 1])
  }

  lemma {:induction false} GoesOn(b: Book, events: seq<Event>, n: nat)
    requires |b.num| == |b.holder| == NFLAGS && n <= |events|
    requires forall k :: 0 <= k < |events| ==> events[k].Known()
    ensures Goes(b, events) ==> Goes(b, events[..n])
    decreases |events|
  {
    if n == |events| {
      assert events[..n] == events;
    } else {
      var m := |events| - 1;
      assert events[..m][..n] == events[..n];
      GoesOn(b, events[..m], n);
    }
  }

  /** Giving one process another nest. */
  lemma Renested(b: Book, pid: nat, p: nat, nest: seq<nat>)
    requires b.Good() && p < |b.entries| && Nested(nest)
    requires b.entries[p].pid == pid || pid == 0 || !b.Knows(pid)
    ensures var es := b.entries[p := Entry(pid, nest)];
            && (forall i :: 0 <= i < |es| ==> Nested(es[i].nest))
            && (forall i, j :: 0 <= i < j < |es| && es[i].pid == es[j].pid ==> es[i].pid == 0)
            && forall f: nat :: Sum(es, f) == Sum(b.entries, f) - Count(b.entries[p].nest, f) + Count(nest, f)
  {
    hide Nested, Count, Sum;
    var es := b.entries[p := Entry(pid, nest)];
    forall f: nat
      ensures Sum(es, f) == Sum(b.entries, f) - Count(b.entries[p].nest, f) + Count(nest, f)
    {
      SumUpdate(b.entries, p, Entry(pid, nest), f);
    }
  }

  lemma {:induction false} RemoveNested(s: seq<nat>, f: nat)
    requires Nested(s)
    ensures Nested(RemoveLast(s, f))
  {
    if s != [] {
      RemoveNested(s[..|s| - 1], f);
      RemoveLength(s[..|s| - 1], f);
    }
  }

  lemma {:induction false} RemoveLength(s: seq<nat>, f: nat)
    ensures |RemoveLast(s, f)| <= |s|
  {
    if s != [] {
      RemoveLength(s[..|s| - 1], f);
    }
  }

  lemma EnterBalances(b: Book, e: Event)
    requires b.Good() && b.InStep() && e.Known() && e.EnterSection? && !b.Stops(e)
    ensures b.After(e).Good() && (b.After(e).InStep() <==> b.Orderly(e))
  {
    hide Count, Sum;
    if !b.Waits(e) {
      var s, flag := b.NestOf(e.pid), e.flag;
      var nest := if |s| < HISTORY then s + [flag] else s;
      Renested(b, e.pid, b.Pos(e.pid), nest);
      forall f: nat
        ensures Count(nest, f) == Count(s, f) + if f == flag && |s| < HISTORY then 1 else 0
      {
        CountPush(s, flag, f);
      }
      assert b.After(e).InStep() ==> b.After(e).num[flag] == Sum(b.After(e).entries, flag);
    }
  }

  lemma ExitBalances(b: Book, e: Event)
    requires b.Good() && b.InStep() && e.Known() && e.ExitSection? && !b.Stops(e)
    ensures b.After(e).Good() && (b.After(e).InStep() <==> b.Orderly(e))
  {
    hide Count, Sum, RemoveLast;
    var s, flag := b.NestOf(e.pid), e.flag;
    RemoveNested(s, flag);
    Renested(b, e.pid, b.Pos(e.pid), Popped(s, flag));
    if flag in s {
      forall f: nat
        ensures Count(RemoveLast(s, flag), f) == Count(s, f) - if f == flag then 1 else 0
      {
        RemoveCount(s, flag, f);
      }
    } else {
      CountNone(s, flag);
      CountNone(Popped(s, flag), flag);
      assert b.After(e).num[flag] != Sum(b.After(e).entries, flag);
    }
  }

  lemma LeaveBalances(b: Book, e: Event)
    requires b.Good() && b.InStep() && e.Known() && (e.Leave? || e.ExitEvery? || e.Arrive?) && !b.Stops(e)
    ensures b.After(e).Good() && (b.After(e).InStep() <==> b.Orderly(e))
  {
    hide Sum;
    if e.Arrive? {
      if b.Knows(0) { Renested(b, e.pid, b.Pos(0), b.NestOf(0)); }
    } else if b.Knows(e.pid) {
      var s := b.NestOf(e.pid);
      Renested(b, if e.Leave? then 0 else e.pid, b.Pos(e.pid), []);
      if e.Leave? && s != [] {
        FirstCounts(s);
        assert b.After(e).num[s[0]] != Sum(b.After(e).entries, s[0]);
      }
    }
  }

  /** An event leaves the counters in step exactly when it is orderly. */
  lemma StepBalances(b: Book, e: Event)
    requires b.Good() && b.InStep() && e.Known() && !b.Stops(e)
    ensures b.After(e).Good() && (b.After(e).InStep() <==> b.Orderly(e))
  {
    match e
    case EnterSection(_, _) => EnterBalances(b, e);
    case ExitSection(_, _) => ExitBalances(b, e);
    case Arrive(_) => LeaveBalances(b, e);
    case Leave(_) => LeaveBalances(b, e);
    case ExitEvery(_) => LeaveBalances(b, e);
    case Lock(_, _) =>
    case Unlock(_, _) =>
  }

  /** Each event of the run is orderly where it happens. */
  ghost predicate AllOrderly(b: Book, events: seq<Event>)
    requires |b.num| == |b.holder| == NFLAGS && forall k :: 0 <= k < |events| ==> events[k].Known()
  {
    forall n :: 0 <= n < |events| ==> Final(b, events[..n]).Orderly(events[n])
  }

  /** Every run of orderly events, of any processes in any order, keeps counters and nests in step. */
  lemma {:induction false} RunBalances(b: Book, events: seq<Event>)
    requires b.Good() && b.InStep() && (forall k :: 0 <= k < |events| ==> events[k].Known()) && Goes(b, events)
    requires AllOrderly(b, events)
    ensures Final(b, events).Good() && Final(b, events).InStep()
  {
    hide Book.InStep, Book.Stops, Book.After, Book.Orderly;
    if events != [] {
      var m := |events| - 1;
      assert forall n :: 0 <= n < m ==> events[..m][..n] == events[..n];
      RunBalances(b, events[..m]);
      assert Final(b, events[..m]).Orderly(events[m]);
      StepBalances(Final(b, events[..m]), events[m]);
    }
  }

  class Sections {
    var num: seq<int>          // recovery_locks[f].num
    var holder: seq<int>       // who holds recovery_locks[f].lock; NONE if nobody
    var infos: seq<Info>

    /** Every history is a stack, and the pids in use differ. */
    ghost predicate Valid()
      reads this
    {
      && |num| == |holder| == NFLAGS
      && (forall i :: 0 <= i < |infos| ==> Stacked(infos[i].history) && Flags(infos[i].history))
      && (forall i, j :: 0 <= i < j < |infos| && infos[i].pid == infos[j].pid ==> infos[i].pid == 0)
    }

    /** init_recovery_locks: no process, nobody inside. */
    constructor ()
      ensures Valid() && AllBalanced() && infos == seq(NPROC, _ => Info(0, Empty())) && holder == seq(NFLAGS, _ => NONE)
    {
      num, holder := seq(NFLAGS, _ => 0), seq(NFLAGS, _ => NONE);
      infos := seq(NPROC, _ => Info(0, Empty()));
      new;
      EmptyNest();
      forall f: nat
        ensures Total(infos, f) == 0
      {
        SumEmpty(Listed(infos), f);
      }
    }

    /** num[f] is the number of times processes are inside f. */
    ghost predicate Balanced(f: nat)
      requires f < |num|
      reads this
    {
      num[f] == Total(infos, f)
    }

    /** The counters of all flags that sections use. */
    ghost predicate AllBalanced()
      requires Valid()
      reads this
    {
      forall f :: 0 < f < NFLAGS ==> Balanced(f)
    }

    /** The counters, holders and nests as they are. */
    ghost function Now(): (b: Book)
      requires Valid()
      reads this
      ensures b.num == num && b.holder == holder && b.entries == Listed(infos)
      ensures b.Good() && (b.InStep() <==> AllBalanced())
    {
      AllNested(infos);
      assert forall f :: 0 < f < NFLAGS ==> (Balanced(f) <==> num[f] == Sum(Listed(infos), f));
      Book(num, holder, Listed(infos))
    }

    /** The entry of a process; |infos| if there is none. */
    method Find(pid: nat) returns (i: nat)
      ensures i <= |infos| && (i < |infos| ==> infos[i].pid == pid)
      ensures forall k :: 0 <= k < i ==> infos[k].pid != pid
    {
      i := 0;
      while i < |infos| && infos[i].pid != pid
        invariant 0 <= i <= |infos|
        invariant forall k :: 0 <= k < i ==> infos[k].pid != pid
      {
        i := i + 1;
      }
    }

    /**
     enter_recovery_critical_section by a process: it waits, changing nothing, while another
     holds the flag's recovery lock. A process that holds it enters without counting, and a
     full history is left without recording, so the flag stays balanced just when both
     happen or neither does.
     */
    method Enter(pid: nat, flag: nat) returns (ok: bool, waits: bool, ghost i: nat)
      requires Valid() && 0 < flag < NFLAGS
      modifies this
      ensures Valid() && holder == old(holder)
      ensures waits <==> old(holder)[flag] != NONE && old(holder)[flag] != pid
      ensures waits || !ok ==> infos == old(infos)
      ensures waits ==> ok && num == old(num)
      ensures !ok ==> forall k :: 0 <= k < |infos| ==> infos[k].pid != pid
      ensures forall f :: 0 <= f < NFLAGS && f != flag ==> num[f] == old(num)[f]
      ensures num[flag] == old(num)[flag] + if old(holder)[flag] == NONE then 1 else 0
      ensures ok && !waits ==> i < |infos| == |old(infos)| && old(infos)[i].pid == pid
      ensures ok && !waits ==> infos == old(infos)[i := Info(pid, infos[i].history)]
      ensures ok && !waits ==>
                var s := Nest(old(infos)[i].history);
                Nest(infos[i].history) == if |s| < HISTORY then s + [flag] else s
      ensures ok && !waits ==> forall f :: 0 <= f < NFLAGS && f != flag && old(Balanced(f)) ==> Balanced(f)
      ensures ok && !waits && old(Balanced(flag)) ==>
                (Balanced(flag) <==> ((old(holder)[flag] == pid) <==> |Nest(old(infos)[i].history)| == HISTORY))
    {
      hide Stacked, Flags, Nest, Count, Total, Depth;
      ok, waits, i := true, false, 0;
      if holder[flag] != pid {
        if holder[flag] != NONE { waits := true; return; }
        num := num[flag := num[flag] + 1];
      }
      var k := Find(pid);
      i := k;
      if k == |infos| { ok := false; return; }
      ghost var was := infos;
      var h := Add(infos[k].history, flag);
      infos := infos[k := Info(pid, h)];
      NestLength(was[k].history);
      forall f: nat | f < NFLAGS
        ensures Total(infos, f) == Total(was, f) + if f == flag && Depth(was[k].history) < HISTORY then 1 else 0
      {
        TotalUpdate(was, k, Info(pid, h), f);
        CountPush(Nest(was[k].history), flag, f);
      }
    }

    /**
     exit_recovery_critical_section by a process: the counter drops, and the innermost entry
     of the flag leaves the history. The flag stays balanced just when it was entered.
     */
    method Exit(pid: nat, flag: nat) returns (ok: bool, ghost i: nat)
      requires Valid() && 0 < flag < NFLAGS
      modifies this
      ensures Valid() && holder == old(holder) && num == old(num)[flag := old(num)[flag] - 1]
      ensures !ok ==> infos == old(infos) && forall k :: 0 <= k < |infos| ==> infos[k].pid != pid
      ensures ok ==> i < |infos| == |old(infos)| && old(infos)[i].pid == pid
      ensures ok ==> infos == old(infos)[i := Info(pid, infos[i].history)]
      ensures ok ==> Nest(infos[i].history) == Popped(Nest(old(infos)[i].history), flag)
      ensures ok && flag in Nest(old(infos)[i].history) ==> forall f :: 0 < f < NFLAGS && old(Balanced(f)) ==>
                Balanced(f)
      ensures ok && flag !in Nest(old(infos)[i].history) && old(Balanced(flag)) ==> !Balanced(flag)
    {
      hide Stacked, Flags, Nest, Count, Total, Depth, RemoveLast;
      num := num[flag := num[flag] - 1];
      var k := Find(pid);
      ok, i := true, k;
      if k == |infos| { return false, 0; }
      ghost var was := infos;
      var h := Del(infos[k].history, flag);
      NestLength(infos[k].history);
      infos := infos[k := Info(pid, h)];
      forall f: nat | f < NFLAGS
        ensures flag in Nest(was[k].history) ==> Total(infos, f) == Total(was, f) - if f == flag then 1 else 0
        ensures f == flag && flag !in Nest(was[k].history) ==> Total(infos, f) == Total(was, f)
      {
        TotalUpdate(was, k, Info(pid, h), f);
        RemoveCount(Nest(was[k].history), flag, f);
        if f == flag && flag !in Nest(was[k].history) {
          CountNone(Nest(was[k].history), flag);
          CountNone(Nest(h), flag);
        }
      }
    }

    /**
     exit_recovery_critical_section_all: gives back exactly the process's share of every
     counter but the one of flag 0, and empties its history.
     */
    method ExitAll(pid: nat) returns (ok: bool, ghost i: nat)
      requires Valid()
      modifies this
      ensures Valid() && holder == old(holder)
      ensures !ok ==> infos == old(infos) && num == old(num) && forall k :: 0 <= k < |infos| ==> infos[k].pid != pid
      ensures ok ==> i < |old(infos)| && old(infos)[i].pid == pid && infos == old(infos)[i := Info(pid, Empty())]
      ensures ok ==> forall f :: 0 < f < NFLAGS ==> num[f] == old(num)[f] - Count(Nest(old(infos)[i].history), f)
      ensures ok ==> num[0] == old(num)[0] - (HISTORY - Depth(old(infos)[i].history))
      ensures ok ==> forall f :: 0 < f < NFLAGS && old(Balanced(f)) ==> Balanced(f)
    {
      hide Nest, Total, Depth;
      var k := Find(pid);
      i := k;
      if k == |infos| { return false, 0; }
      ghost var was := infos;
      var h := infos[k].history;
      var j := 0;
      while j < HISTORY
        invariant 0 <= j <= HISTORY && |num| == NFLAGS && holder == old(holder)
        invariant infos == was
        invariant forall f :: 0 <= f < NFLAGS ==> num[f] == old(num)[f] - Count(h[..j], f)
      {
        var flag := h[j];
        assert h[..j + 1][..j] == h[..j];
        num := num[flag := num[flag] - 1];
        j := j + 1;
      }
      assert h[..j] == h;
      infos := infos[k := Info(pid, Empty())];
      CountWhole(h);
      EmptyNest();
      forall f: nat | 0 < f < NFLAGS
        ensures Total(infos, f) == Total(was, f) - Count(Nest(h), f)
      {
        TotalUpdate(was, k, Info(pid, Empty()), f);
      }
      ok := true;
    }

    /** init_rcs_infos: the process takes the first free entry, if there is one. */
    method Start(pid: nat) returns (ghost i: nat)
      requires Valid() && pid != 0 && forall k :: 0 <= k < |infos| ==> infos[k].pid != pid
      modifies this`infos
      ensures Valid() && i <= |old(infos)| && (forall k :: 0 <= k < i ==> old(infos)[k].pid != 0)
      ensures i == |old(infos)| ==> infos == old(infos)
      ensures i < |old(infos)| ==> old(infos)[i].pid == 0 && infos == old(infos)[i := Info(pid, old(infos)[i].history)]
      ensures AllBalanced() <==> old(AllBalanced())
    {
      hide Total;
      var k := Find(0);
      i := k;
      if k < |infos| {
        ghost var was := infos;
        infos := infos[k := infos[k].(pid := pid)];
        forall f: nat | f < NFLAGS
          ensures Balanced(f) <==> old(Balanced(f))
        {
          TotalUpdate(was, k, infos[k], f);
        }
      }
    }

    /** free_rcs_history: nothing, or the entry is emptied without regard to the counters. */
    method End(pid: nat) returns (ghost i: nat)
      requires Valid()
      modifies this`infos
      ensures Valid() && i <= |old(infos)| && (forall k :: 0 <= k < i ==> old(infos)[k].pid != pid)
      ensures i == |old(infos)| ==> infos == old(infos)
      ensures i < |old(infos)| ==> old(infos)[i].pid == pid && infos == old(infos)[i := Info(0, Empty())]
      ensures old(AllBalanced()) ==>
                (AllBalanced() <==> i == |old(infos)| || Nest(old(infos)[i].history) == [])
    {
      hide Nest, Total, Depth, Count;
      var k := Find(pid);
      i := k;
      if k == |infos| { return; }
      ghost var was := infos;
      infos := infos[k := Info(0, Empty())];
      EmptyNest();
      forall f: nat | f < NFLAGS
        ensures old(Balanced(f)) ==> (Balanced(f) <==> Count(Nest(was[k].history), f) == 0)
        ensures Nest(was[k].history) == [] ==> Count(Nest(was[k].history), f) == 0
      {
        TotalUpdate(was, k, infos[k], f);
        if Nest(was[k].history) == [] { CountNone(Nest(was[k].history), f); }
      }
      if Nest(was[k].history) != [] {
        OneCounts(was[k].history);
        ghost var f := Nest(was[k].history)[0];
        assert old(AllBalanced()) ==> old(Balanced(f));
      }
    }

    /** One event: its exact effect, and a panic exactly when the code calls for one. */
    method Do(e: Event) returns (ok: bool)
      requires Valid() && e.Known()
      modifies this
      ensures Valid() && (ok <==> !old(Now()).Stops(e))
      ensures ok ==> Now() == old(Now()).After(e)
    {
      hide Stacked, Flags, Nest, Total, Sum, Depth, Count, Popped, GivenBack, Listed, First, Book.Good, Book.InStep;
      hide Balanced, AllBalanced, RemoveLast;
      ok := true;
      ghost var i: nat := 0;
      ghost var was := infos;
      match e
      case Arrive(pid) =>
        var k := Find(pid);
        ListedAt(infos, k, pid);
        if k < |infos| { return false; }
        i := Start(pid);
        ListedAt(was, i, 0);
        if i < |was| { ListedUpdate(was, i, infos[i]); }
      case Leave(pid) =>
        i := End(pid);
        ListedAt(was, i, pid);
        EmptyNest();
        if i < |was| { ListedUpdate(was, i, infos[i]); }
      case EnterSection(pid, flag) =>
        var waits;
        ok, waits, i := Enter(pid, flag);
        Found(was, i, pid);
        if ok && !waits { ListedUpdate(was, i, infos[i]); }
      case ExitSection(pid, flag) =>
        ok, i := Exit(pid, flag);
        Found(was, i, pid);
        if ok { ListedUpdate(was, i, infos[i]); }
      case ExitEvery(pid) =>
        ok, i := ExitAll(pid);
        Found(was, i, pid);
        EmptyNest();
        if ok { AllGiven(old(num), num, was[i].history); }
        if ok { ListedUpdate(was, i, infos[i]); }
      case Lock(pid, flag) =>
        if holder[flag] == pid { return false; }
        var waits := AcquireLock(pid, flag);
      case Unlock(pid, flag) =>
        if holder[flag] != pid { return false; }
        ReleaseLock(pid, flag);
    }

    /**
     A whole run: it panics exactly when one of its events does, it ends as their effects add
     up, and orderly events keep the counters in step.
     */
    method Run(events: seq<Event>) returns (ok: bool)
      requires Valid() && forall k :: 0 <= k < |events| ==> events[k].Known()
      modifies this
      ensures Valid() && (ok <==> Goes(old(Now()), events))
      ensures ok ==> Now() == Final(old(Now()), events)
      ensures ok && old(AllBalanced()) && AllOrderly(old(Now()), events) ==> AllBalanced()
    {
      hide Now, Book.Stops, Book.After, Book.Orderly, Book.InStep, AllOrderly;
      ghost var b := Now();
      ok := true;
      var n := 0;
      while n < |events|
        invariant n <= |events| && Valid() && Goes(b, events[..n]) && Now() == Final(b, events[..n])
      {
        assert events[..n + 1][..n] == events[..n];
        ok := Do(events[n]);
        if !ok {
          GoesOn(b, events, n + 1);
          return;
        }
        n := n + 1;
      }
      ok := true;
      assert events[..n] == events;
      if old(AllBalanced()) && AllOrderly(b, events) { RunBalances(b, events); }
    }

    /**
     Entering a section and leaving it again: the histories are as before, and so is the
     counter unless the process holds the flag's recovery lock; then it is one too low.
     */
    method EnterAndExit(pid: nat, flag: nat) returns (ok: bool, waits: bool, ghost i: nat)
      requires Valid() && 0 < flag < NFLAGS && pid != 0
      requires forall k :: 0 <= k < |infos| && infos[k].pid == pid ==> |Nest(infos[k].history)| < HISTORY
      modifies this
      ensures Valid() && (waits <==> old(holder)[flag] != NONE && old(holder)[flag] != pid)
      ensures ok && !waits ==>
                && i < |infos| == |old(infos)| && infos[i].pid == old(infos)[i].pid == pid
                && Nest(infos[i].history) == Nest(old(infos)[i].history)
                && (forall k :: 0 <= k < |infos| && k != i ==> infos[k] == old(infos)[k])
                && num == old(num)[flag := old(num)[flag] - if old(holder)[flag] == pid then 1 else 0]
    {
      hide Nest, Total, Stacked, Flags, Depth, RemoveLast;
      ok, waits, i := Enter(pid, flag);
      if !ok || waits { return; }
      EnterThenExit(Nest(old(infos)[i].history), flag);
      ghost var j;
      ok, j := Exit(pid, flag);
    }

    /** acquire_recovery_lock: waits while another process holds it. */
    method AcquireLock(who: nat, flag: nat) returns (waits: bool)
      requires Valid() && flag < NFLAGS && holder[flag] != who
      modifies this`holder
      ensures Valid() && (waits <==> old(holder)[flag] != NONE)
      ensures holder == if waits then old(holder) else old(holder)[flag := who]
    {
      waits := holder[flag] != NONE;
      if !waits { holder := holder[flag := who]; }
    }

    method ReleaseLock(who: nat, flag: nat)
      requires Valid() && flag < NFLAGS && holder[flag] == who
      modifies this`holder
      ensures Valid() && holder == old(holder)[flag := NONE]
    {
      holder := holder[flag := NONE];
    }
  }

  function Empty(): seq<nat> { [0, 0, 0, 0, 0] }

  lemma EmptyNest()
    ensures Stacked(Empty()) && Nest(Empty()) == [] && forall f :: 0 <= f ==> Count(Nest(Empty()), f) == 0
  {
    DepthIs(Empty(), 0);
  }

  lemma NestLength(h: seq<nat>)
    requires Stacked(h)
    ensures |Nest(h)| == Depth(h) <= HISTORY
  {
  }

  /** The outermost section of a nest counts. */
  lemma OneCounts(h: seq<nat>)
    requires Stacked(h) && Flags(h) && Nest(h) != []
    ensures 0 < Nest(h)[0] < NFLAGS && Count(Nest(h), Nest(h)[0]) > 0
  {
    FirstCounts(Nest(h));
  }

  lemma {:induction false} FirstCounts(s: seq<nat>)
    requires s != []
    ensures Count(s, s[0]) > 0
  {
    if |s| > 1 {
      FirstCounts(s[..|s| - 1]);
    }
  }

  lemma {:induction false} CountNone(s: seq<nat>, f: nat)
    requires f !in s
    ensures Count(s, f) == 0
  {
    if s != [] {
      assert s[..|s| - 1] <= s;
      CountNone(s[..|s| - 1], f);
    }
  }

  lemma {:induction false} CountPrefix(h: seq<nat>, j: nat, f: nat)
    requires Stacked(h) && j <= HISTORY
    ensures var d := Depth(h);
            Count(h[..j], f) == if j <= d then (if f == 0 then 0 else Count(h[..j], f))
                                else Count(h[..d], f) + if f == 0 then j - d else 0
  {
    hide Stacked, Depth;
    if j > 0 {
      ZeroAt(h, j - 1);
      CountPrefix(h, j - 1, f);
      assert h[..j][..j - 1] == h[..j - 1];
    }
  }

  lemma ZeroAt(h: seq<nat>, k: nat)
    requires Stacked(h) && k < HISTORY
    ensures |h| == HISTORY && (h[k] == 0 <==> Depth(h) <= k)
  {
  }

  /** The five slots hold the nested flags and zeros. */
  lemma CountWhole(h: seq<nat>)
    requires Stacked(h)
    ensures forall f :: 0 < f ==> Count(h, f) == Count(Nest(h), f)
    ensures Count(h, 0) == HISTORY - Depth(h)
  {
    assert h[..HISTORY] == h;
    forall f: nat
      ensures Count(h, f) == Count(Nest(h), f) + if f == 0 then HISTORY - Depth(h) else 0
      ensures f == 0 ==> Count(Nest(h), f) == 0
    {
      CountPrefix(h, HISTORY, f);
      CountPrefix(h, Depth(h), f);
    }
  }

  /** The nests of valid histories. */
  lemma AllNested(infos: seq<Info>)
    requires forall i :: 0 <= i < |infos| ==> Stacked(infos[i].history) && Flags(infos[i].history)
    ensures forall i :: 0 <= i < |infos| ==> Nested(Listed(infos)[i].nest)
  {
    forall i | 0 <= i < |infos|
      ensures Nested(Listed(infos)[i].nest)
    {
      NestLength(infos[i].history);
    }
  }

  /** The first entry of a process is where the list has it. */
  lemma ListedAt(infos: seq<Info>, i: nat, pid: nat)
    requires i <= |infos| && (i < |infos| ==> infos[i].pid == pid)
    requires forall k :: 0 <= k < i ==> infos[k].pid != pid
    ensures First(Listed(infos), pid) == i
    ensures i < |infos| ==> Listed(infos)[i] == Entry(pid, Nest(infos[i].history))
  {
    var es := Listed(infos);
    var p := First(es, pid);
    assert p < |infos| ==> es[p].pid == infos[p].pid;
    assert i < |infos| ==> es[i].pid == pid;
  }

  lemma Found(infos: seq<Info>, i: nat, pid: nat)
    requires pid != 0
    requires forall i, j :: 0 <= i < j < |infos| && infos[i].pid == infos[j].pid ==> infos[i].pid == 0
    ensures i < |infos| && infos[i].pid == pid ==>
              First(Listed(infos), pid) == i && Listed(infos)[i] == Entry(pid, Nest(infos[i].history))
    ensures First(Listed(infos), pid) == |infos| <==> forall k :: 0 <= k < |infos| ==> infos[k].pid != pid
  {
    var es := Listed(infos);
    assert forall k :: 0 <= k < |infos| ==> es[k].pid == infos[k].pid;
  }
}
