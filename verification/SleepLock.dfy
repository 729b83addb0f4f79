/**
 acquiresleep and releasesleep of kernel/sleeplock.c over sleep, wakeup, sched and scheduler
 of kernel/proc.c, as a state machine. A step is what runs between two points where another
 processor may intervene; every taking of a spinlock is a step of its own.
 */
module SleepLock {
  const FREE := -1
  const SCHED := -2   // a processor's scheduler

  /**
   Where a process is with sleeplock l: outside; waiting for l's spinlock in acquiresleep;
   about to test `locked`; the lock won; in sleep, before taking its own p->lock, with both
   locks, with p->lock alone, marked SLEEPING; switched out; switched in again in sleep;
   waiting for l's spinlock in releasesleep; about to clear `locked`; in wakeup before
   process i; holding process i's p->lock.
   */
  datatype Pc =
    | Out
    | Wants(l: nat)
    | Testing(l: nat)
    | Won(l: nat)
    | ToSleep(l: nat)
    | BothLocks(l: nat)
    | Parking(l: nat)
    | Parked(l: nat)
    | Off(l: nat)
    | Back(l: nat)
    | WantsOut(l: nat)
    | Releasing(l: nat)
    | Waking(l: nat, i: nat)
    | Visiting(l: nat, i: nat)
  {
    /** Holds sleeplock k's spinlock. */
    predicate Spins(k: nat) {
      (Testing? || Won? || ToSleep? || BothLocks? || Releasing? || Waking? || Visiting?) && l == k
    }

    /** Process p here holds process q's p->lock. */
    predicate Guards(p: nat, q: nat) {
      ((BothLocks? || Parking? || Parked? || Back?) && p == q) || (Visiting? && i == q)
    }

    /** In wakeup on sleeplock k, with process q still to visit. */
    predicate WillVisit(k: nat, q: nat) { (Waking? || Visiting?) && l == k && i <= q }
  }

  datatype Run = Running | Runnable | Sleeping

  /**
   spin[l] and plock[q] are the holders of the spinlocks; locked and pid are the sleeplock's
   fields; run and chan are p->state and p->chan (0 for none, l + 1 for sleeplock l); held is
   the set of sleeplocks a process has acquired and not released.
   */
  datatype State = State(
    pc: seq<Pc>, held: seq<set<nat>>, run: seq<Run>, chan: seq<nat>, plock: seq<int>,
    spin: seq<int>, locked: seq<bool>, pid: seq<int>)
  {
    predicate Shape() {
      && |held| == |pc| && |run| == |pc| && |chan| == |pc| && |plock| == |pc|
      && |locked| == |spin| && |pid| == |spin|
    }
    predicate Proc(p: int) { 0 <= p < |pc| }
    predicate Lock(l: int) { 0 <= l < |spin| }
  }

  // ----- steps of process p

  ghost predicate Acquire(s: State, t: State, p: nat, l: nat)
    requires s.Shape()
  {
    s.Proc(p) && s.Lock(l) && s.pc[p].Out? && l !in s.held[p] && t == s.(pc := s.pc[p := Wants(l)])
  }

  ghost predicate Release(s: State, t: State, p: nat, l: nat)
    requires s.Shape()
  {
    s.Proc(p) && s.Lock(l) && s.pc[p].Out? && l in s.held[p] && t == s.(pc := s.pc[p := WantsOut(l)])
  }

  /** acquire(&lk->lk), in either call or back from sleep. */
  ghost predicate TakeSpin(s: State, t: State, p: nat)
    requires s.Shape()
  {
    && s.Proc(p) && (s.pc[p].Wants? || s.pc[p].WantsOut?)
    && var l := s.pc[p].l;
    && s.Lock(l) && s.spin[l] == FREE
    && t == s.(spin := s.spin[l := p], pc := s.pc[p := if s.pc[p].Wants? then Testing(l) else Releasing(l)])
  }

  /** while (lk->locked), and the two assignments behind it. */
  ghost predicate Test(s: State, t: State, p: nat)
    requires s.Shape()
  {
    && s.Proc(p) && s.pc[p].Testing?
    && var l := s.pc[p].l;
    && s.Lock(l)
    && t == if s.locked[l] then s.(pc := s.pc[p := ToSleep(l)])
            else s.(locked := s.locked[l := true], pid := s.pid[l := p + 1], held := s.held[p := s.held[p] + {l}],
                    pc := s.pc[p := Won(l)])
  }

  /** release(&lk->lk) at the end of either call. */
  ghost predicate DropSpin(s: State, t: State, p: nat)
    requires s.Shape()
  {
    && s.Proc(p) && (s.pc[p].Won? || (s.pc[p].Waking? && s.pc[p].i == |s.pc|))
    && var l := s.pc[p].l;
    && s.Lock(l) && t == s.(spin := s.spin[l := FREE], pc := s.pc[p := Out])
  }

  /** sleep: acquire(&p->lock). */
  ghost predicate TakeOwn(s: State, t: State, p: nat)
    requires s.Shape()
  {
    && s.Proc(p) && s.pc[p].ToSleep? && s.plock[p] == FREE
    && t == s.(plock := s.plock[p := p], pc := s.pc[p := BothLocks(s.pc[p].l)])
  }

  /** sleep: release(lk). */
  ghost predicate LetGo(s: State, t: State, p: nat)
    requires s.Shape()
  {
    && s.Proc(p) && s.pc[p].BothLocks?
    && var l := s.pc[p].l;
    && s.Lock(l) && t == s.(spin := s.spin[l := FREE], pc := s.pc[p := Parking(l)])
  }

  /** sleep: p->chan = chan; p->state = SLEEPING. */
  ghost predicate Park(s: State, t: State, p: nat)
    requires s.Shape()
  {
    && s.Proc(p) && s.pc[p].Parking?
    && t == s.(chan := s.chan[p := s.pc[p].l + 1], run := s.run[p := Sleeping], pc := s.pc[p := Parked(s.pc[p].l)])
  }

  /** sched: swtch to the processor's scheduler, which now holds p->lock. */
  ghost predicate SwitchOut(s: State, t: State, p: nat)
    requires s.Shape()
  {
    && s.Proc(p) && s.pc[p].Parked?
    && t == s.(plock := s.plock[p := SCHED], pc := s.pc[p := Off(s.pc[p].l)])
  }

  /** scheduler: release(&p->lock) after the switch. */
  ghost predicate SchedulerDrops(s: State, t: State, p: nat)
    requires s.Shape()
  {
    s.Proc(p) && s.plock[p] == SCHED && t == s.(plock := s.plock[p := FREE])
  }

  /** scheduler: take p->lock, find p RUNNABLE, and switch to it; p now holds its lock. */
  ghost predicate SwitchIn(s: State, t: State, p: nat)
    requires s.Shape()
  {
    && s.Proc(p) && s.pc[p].Off? && s.plock[p] == FREE && s.run[p].Runnable?
    && t == s.(plock := s.plock[p := p], run := s.run[p := Running], pc := s.pc[p := Back(s.pc[p].l)])
  }

  /** sleep: p->chan = 0; release(&p->lock). */
  ghost predicate Tidy(s: State, t: State, p: nat)
    requires s.Shape()
  {
    && s.Proc(p) && s.pc[p].Back?
    && t == s.(chan := s.chan[p := 0], plock := s.plock[p := FREE], pc := s.pc[p := Wants(s.pc[p].l)])
  }

  /** releasesleep: lk->locked = 0; lk->pid = 0; enter wakeup. */
  ghost predicate Clear(s: State, t: State, p: nat)
    requires s.Shape()
  {
    && s.Proc(p) && s.pc[p].Releasing?
    && var l := s.pc[p].l;
    && s.Lock(l)
    && t == s.(locked := s.locked[l := false], pid := s.pid[l := 0], held := s.held[p := s.held[p] - {l}],
               pc := s.pc[p := Waking(l, 0)])
  }

  /** wakeup: acquire process i's p->lock. */
  ghost predicate Visit(s: State, t: State, p: nat)
    requires s.Shape()
  {
    && s.Proc(p) && s.pc[p].Waking? && s.Proc(s.pc[p].i)
    && var i := s.pc[p].i;
    && s.plock[i] == FREE
    && t == s.(plock := s.plock[i := p], pc := s.pc[p := Visiting(s.pc[p].l, i)])
  }

  /** wakeup: wake process i if it sleeps on the channel, and go on. */
  ghost predicate Leave(s: State, t: State, p: nat)
    requires s.Shape()
  {
    && s.Proc(p) && s.pc[p].Visiting? && s.Proc(s.pc[p].i)
    && var l, i := s.pc[p].l, s.pc[p].i;
    && t == s.(run := if s.run[i].Sleeping? && s.chan[i] == l + 1 then s.run[i := Runnable] else s.run,
               plock := s.plock[i := FREE], pc := s.pc[p := Waking(l, i + 1)])
  }

  /** kill makes a sleeping process runnable whatever it sleeps on. */
  ghost predicate Kill(s: State, t: State, p: nat)
    requires s.Shape()
  {
    && s.Proc(p) && s.plock[p] == FREE && s.run[p].Sleeping?
    && t == s.(run := s.run[p := Runnable])
  }

  ghost predicate LockStep(s: State, t: State, p: nat)
    requires s.Shape()
  {
    || (exists l: nat :: Acquire(s, t, p, l)) || (exists l: nat :: Release(s, t, p, l))
    || TakeSpin(s, t, p) || Test(s, t, p) || DropSpin(s, t, p) || Clear(s, t, p)
  }

  ghost predicate SleepStep(s: State, t: State, p: nat)
    requires s.Shape()
  {
    || TakeOwn(s, t, p) || LetGo(s, t, p) || Park(s, t, p) || SwitchOut(s, t, p) || SchedulerDrops(s, t, p)
    || SwitchIn(s, t, p) || Tidy(s, t, p)
  }

  ghost predicate WakeStep(s: State, t: State, p: nat)
    requires s.Shape()
  {
    Visit(s, t, p) || Leave(s, t, p) || Kill(s, t, p)
  }

  ghost predicate StepBy(s: State, t: State, p: nat)
    requires s.Shape()
  {
    LockStep(s, t, p) || SleepStep(s, t, p) || WakeStep(s, t, p)
  }

  // ----- invariants

  /** The spinlocks are held just where the program says, so by at most one process each. */
  ghost predicate Spinlocks(s: State)
    requires s.Shape()
  {
    && (forall p, l :: s.Proc(p) && s.Lock(l) ==> (s.pc[p].Spins(l) <==> s.spin[l] == p))
    && (forall p, q :: s.Proc(p) && s.Proc(q) ==> (s.pc[p].Guards(p, q) <==> s.plock[q] == p))
    && (forall q :: s.Proc(q) && s.plock[q] == SCHED ==> s.pc[q].Off?)
    && (forall p :: s.Proc(p) && !s.pc[p].Out? ==> s.Lock(s.pc[p].l))
  }

  /** `locked` and `pid` name the one process that holds the sleeplock. */
  ghost predicate Owned(s: State)
    requires s.Shape()
  {
    && (forall p, l {:trigger l in s.held[p]} :: s.Proc(p) && l in s.held[p] ==>
          s.Lock(l) && s.locked[l] && s.pid[l] == p + 1)
    && (forall l: nat {:trigger s.locked[l]} :: s.Lock(l) && s.locked[l] ==>
          s.Proc(s.pid[l] - 1) && l in s.held[s.pid[l] - 1])
    && (forall l: nat {:trigger s.locked[l]} :: s.Lock(l) && !s.locked[l] ==> s.pid[l] == 0)
  }

  /** A process about to be in, or to leave, its critical section holds the sleeplock. */
  ghost predicate Holding(s: State)
    requires s.Shape()
  {
    forall p {:trigger s.pc[p]} :: s.Proc(p) && (s.pc[p].Won? || s.pc[p].WantsOut? || s.pc[p].Releasing?) ==>
        s.pc[p].l in s.held[p]
  }

  /** A process marked SLEEPING is in sleep, on its sleeplock's channel. */
  ghost predicate Channels(s: State)
    requires s.Shape()
  {
    && (forall p :: s.Proc(p) && (s.pc[p].Parked? || s.pc[p].Off? || s.pc[p].Back?) ==> s.chan[p] == s.pc[p].l + 1)
    && (forall p :: s.Proc(p) ==> (s.run[p].Running? <==> !s.pc[p].Parked? && !s.pc[p].Off?))
    && (forall p :: s.Proc(p) && s.pc[p].Parked? ==> s.run[p].Sleeping?)
  }

  /** Sleeplock l is held, or the process that released it has yet to visit q. */
  ghost predicate Awaited(s: State, l: nat, q: nat)
    requires s.Shape() && s.Lock(l)
  {
    s.locked[l] || (s.Proc(s.spin[l]) && s.pc[s.spin[l]].WillVisit(l, q))
  }

  /** A process on its way to sleep that still has the spinlock has seen the sleeplock held. */
  ghost predicate SeenHeld(s: State)
    requires s.Shape() && Spinlocks(s)
  {
    forall q {:trigger s.pc[q]} :: s.Proc(q) && (s.pc[q].ToSleep? || s.pc[q].BothLocks?) ==> s.locked[s.pc[q].l]
  }

  predicate Sleeper(s: State, q: nat)
    requires s.Shape() && s.Proc(q)
  {
    s.pc[q].Parking? || (s.run[q].Sleeping? && (s.pc[q].Parked? || s.pc[q].Off?))
  }

  /** Nobody goes to sleep, or stays asleep, on a sleeplock that no one will wake it from. */
  ghost predicate NoneLost(s: State)
    requires s.Shape() && Spinlocks(s)
  {
    SeenHeld(s) && forall q {:trigger s.pc[q]} :: s.Proc(q) && Sleeper(s, q) ==> Awaited(s, s.pc[q].l, q)
  }

  ghost predicate Inv(s: State) { s.Shape() && Spinlocks(s) && Owned(s) && Holding(s) && Channels(s) && NoneLost(s) }

  /** Process p moved, and the spinlocks followed. */
  ghost predicate Moved(s: State, t: State, p: nat)
    requires s.Shape() && t.Shape()
  {
    && s.Proc(p) && |t.pc| == |s.pc| && |t.spin| == |s.spin|
    && (forall q {:trigger t.pc[q]} :: s.Proc(q) && q != p ==> t.pc[q] == s.pc[q])
    && (t.pc[p].Out? || s.Lock(t.pc[p].l))
    && (forall l {:trigger t.spin[l]} :: s.Lock(l) ==>
          && t.spin[l] == (if t.pc[p].Spins(l) then p else if s.pc[p].Spins(l) then FREE else s.spin[l])
          && (t.pc[p].Spins(l) ==> s.pc[p].Spins(l) || s.spin[l] == FREE))
    && (forall q {:trigger t.plock[q]} :: s.Proc(q) ==>
          && (if t.pc[p].Guards(p, q) then t.plock[q] == p
              else if s.pc[p].Guards(p, q) then t.plock[q] == FREE || (t.plock[q] == SCHED && p == q && t.pc[p].Off?)
              else t.plock[q] == s.plock[q] || (t.plock[q] == FREE && s.plock[q] == SCHED))
          && (t.pc[p].Guards(p, q) ==> s.pc[p].Guards(p, q) || s.plock[q] == FREE))
    && (s.pc[p].Off? ==> s.plock[p] != SCHED || t.pc[p] == s.pc[p])
  }

  lemma MovedKeeps(s: State, t: State, p: nat)
    requires s.Shape() && t.Shape() && Spinlocks(s) && Moved(s, t, p)
    ensures Spinlocks(t)
  {
    hide Pc.Spins, Pc.Guards;
    forall q, l | s.Proc(q) && s.Lock(l)
      ensures t.pc[q].Spins(l) <==> t.spin[l] == q
    {
      assert t.spin[l] == t.spin[l] && (s.pc[q].Spins(l) <==> s.spin[l] == q);
    }
    forall q, r | s.Proc(q) && s.Proc(r)
      ensures t.pc[q].Guards(q, r) <==> t.plock[r] == q
    {
      assert t.plock[r] == t.plock[r] && (s.pc[q].Guards(q, r) <==> s.plock[r] == q);
    }
  }

  lemma LockStepMoves(s: State, t: State, p: nat)
    requires s.Shape() && Spinlocks(s) && LockStep(s, t, p)
    ensures t.Shape() && Moved(s, t, p)
  {
    assert t.plock == s.plock && forall q :: s.Proc(q) ==> !s.pc[p].Guards(p, q) && !t.pc[p].Guards(p, q);
    hide Pc.Guards;
    if TakeSpin(s, t, p) {
      assert forall l :: s.Lock(l) ==> !s.pc[p].Spins(l) && (t.pc[p].Spins(l) <==> l == s.pc[p].l);
    } else if DropSpin(s, t, p) {
      assert forall l :: s.Lock(l) ==> !t.pc[p].Spins(l) && (s.pc[p].Spins(l) <==> l == s.pc[p].l);
    } else if Test(s, t, p) || Clear(s, t, p) {
      assert forall l :: s.Lock(l) ==> (t.pc[p].Spins(l) <==> s.pc[p].Spins(l));
    } else {
      assert forall l :: s.Lock(l) ==> !s.pc[p].Spins(l) && !t.pc[p].Spins(l);
    }
  }

  lemma SleepStepMoves(s: State, t: State, p: nat)
    requires s.Shape() && Spinlocks(s) && SleepStep(s, t, p)
    ensures t.Shape() && Moved(s, t, p)
  {
    assert forall q :: s.Proc(q) && q != p ==> !s.pc[p].Guards(p, q) && !t.pc[p].Guards(p, q);
    if LetGo(s, t, p) {
      assert forall l :: s.Lock(l) ==> !t.pc[p].Spins(l) && (s.pc[p].Spins(l) <==> l == s.pc[p].l);
    } else {
      assert t.spin == s.spin && forall l :: s.Lock(l) ==> (t.pc[p].Spins(l) <==> s.pc[p].Spins(l));
      if TakeOwn(s, t, p) || SwitchIn(s, t, p) {
        assert !s.pc[p].Guards(p, p) && t.pc[p].Guards(p, p);
      } else if SwitchOut(s, t, p) || Tidy(s, t, p) {
        assert s.pc[p].Guards(p, p) && !t.pc[p].Guards(p, p);
      } else {
        assert t.pc[p].Guards(p, p) <==> s.pc[p].Guards(p, p);
      }
    }
  }

  lemma WakeStepMoves(s: State, t: State, p: nat)
    requires s.Shape() && Spinlocks(s) && WakeStep(s, t, p)
    ensures t.Shape() && Moved(s, t, p)
  {
    assert forall l :: s.Lock(l) ==> (t.pc[p].Spins(l) <==> s.pc[p].Spins(l));
    if Visit(s, t, p) {
      assert forall q :: s.Proc(q) ==> !s.pc[p].Guards(p, q) && (t.pc[p].Guards(p, q) <==> q == s.pc[p].i);
    } else if Leave(s, t, p) {
      assert forall q :: s.Proc(q) ==> !t.pc[p].Guards(p, q) && (s.pc[p].Guards(p, q) <==> q == s.pc[p].i);
    } else {
      assert t.pc == s.pc && t.plock == s.plock;
    }
  }

  lemma TestOwned(s: State, t: State, p: nat)
    requires s.Shape() && Owned(s) && Test(s, t, p)
    ensures t.Shape() && Owned(t)
  {
  }

  lemma ClearOwned(s: State, t: State, p: nat)
    requires s.Shape() && Owned(s) && Holding(s) && Clear(s, t, p)
    ensures t.Shape() && Owned(t)
  {
  }

  lemma StepOwned(s: State, t: State, p: nat)
    requires s.Shape() && Owned(s) && Holding(s) && StepBy(s, t, p)
    ensures t.Shape() && Owned(t)
  {
    hide Holding;
    if Test(s, t, p) {
      TestOwned(s, t, p);
    } else if Clear(s, t, p) {
      ClearOwned(s, t, p);
    } else {
      assert t.held == s.held && t.locked == s.locked && t.pid == s.pid && |t.pc| == |s.pc| && |t.spin| == |s.spin|;
    }
  }

  lemma LockStepHolding(s: State, t: State, p: nat)
    requires s.Shape() && Holding(s) && LockStep(s, t, p)
    ensures t.Shape() && Holding(t)
  {
    if Test(s, t, p) {
    } else if Clear(s, t, p) {
    } else {
    }
  }

  lemma OtherStepHolding(s: State, t: State, p: nat)
    requires s.Shape() && Holding(s) && (SleepStep(s, t, p) || WakeStep(s, t, p))
    ensures t.Shape() && Holding(t)
  {
    assert t.held == s.held;
  }

  lemma LockStepChannels(s: State, t: State, p: nat)
    requires Inv(s) && LockStep(s, t, p)
    ensures t.Shape() && Channels(t)
  {
    hide Owned, NoneLost, Spinlocks, Holding;
    if TakeSpin(s, t, p) || DropSpin(s, t, p) {
    } else if Test(s, t, p) || Clear(s, t, p) {
    } else {
    }
  }

  lemma SleepStepChannels(s: State, t: State, p: nat)
    requires Inv(s) && SleepStep(s, t, p)
    ensures t.Shape() && Channels(t)
  {
    hide Owned, NoneLost, Spinlocks, Holding;
  }

  lemma WakeStepChannels(s: State, t: State, p: nat)
    requires Inv(s) && WakeStep(s, t, p)
    ensures t.Shape() && Channels(t)
  {
    hide Owned, NoneLost, Holding;
  }

  /** A step other than a visit to q keeps the promise that q will be woken from l. */
  lemma LockStepAwaits(s: State, t: State, p: nat, l: nat, q: nat)
    requires s.Shape() && t.Shape() && Spinlocks(s) && LockStep(s, t, p) && s.Lock(l) && s.Proc(q) && Awaited(s, l, q)
    ensures t.Lock(l) && Awaited(t, l, q)
  {
    if TakeSpin(s, t, p) || DropSpin(s, t, p) {
    } else if Test(s, t, p) || Clear(s, t, p) {
    } else {
    }
  }

  lemma SleepStepAwaits(s: State, t: State, p: nat, l: nat, q: nat)
    requires s.Shape() && t.Shape() && Spinlocks(s) && SleepStep(s, t, p) && s.Lock(l) && s.Proc(q) && Awaited(s, l, q)
    ensures t.Lock(l) && Awaited(t, l, q)
  {
    if TakeOwn(s, t, p) || LetGo(s, t, p) || Park(s, t, p) {
    } else if SwitchOut(s, t, p) || SchedulerDrops(s, t, p) {
    } else {
    }
  }

  lemma WakeStepAwaits(s: State, t: State, p: nat, l: nat, q: nat)
    requires s.Shape() && t.Shape() && Spinlocks(s) && WakeStep(s, t, p) && s.Lock(l) && s.Proc(q) && Awaited(s, l, q)
    ensures t.Lock(l) && (Awaited(t, l, q) || (s.pc[p] == Visiting(l, q) && Leave(s, t, p)))
  {
  }

  lemma LockStepSeenHeld(s: State, t: State, p: nat)
    requires s.Shape() && Spinlocks(s) && SeenHeld(s) && LockStep(s, t, p) && t.Shape() && Spinlocks(t)
    ensures SeenHeld(t)
  {
    if TakeSpin(s, t, p) || DropSpin(s, t, p) {
    } else if Test(s, t, p) {
    } else if Clear(s, t, p) {
    } else {
    }
  }

  lemma OtherStepSeenHeld(s: State, t: State, p: nat)
    requires s.Shape() && Spinlocks(s) && SeenHeld(s) && t.Shape() && Spinlocks(t)
    requires SleepStep(s, t, p) || WakeStep(s, t, p)
    ensures SeenHeld(t)
  {
    assert t.locked == s.locked;
  }

  lemma LockStepSleeper(s: State, t: State, p: nat, q: nat)
    requires s.Shape() && t.Shape() && LockStep(s, t, p) && s.Proc(q) && t.Proc(q) && Sleeper(t, q)
    ensures Sleeper(s, q) && t.pc[q] == s.pc[q]
  {
  }

  /** Who sleeps after a step of sleep slept before it, or came to sleep having seen the lock held. */
  lemma SleepStepSleeper(s: State, t: State, p: nat, q: nat)
    requires s.Shape() && Spinlocks(s) && SeenHeld(s) && t.Shape() && SleepStep(s, t, p) && s.Proc(q) && t.Proc(q) &&
               Sleeper(t, q)
    ensures s.Lock(s.pc[q].l) && t.pc[q].l == s.pc[q].l && (Sleeper(s, q) || s.locked[s.pc[q].l])
  {
    if TakeOwn(s, t, p) || LetGo(s, t, p) || Park(s, t, p) {
    } else if SwitchOut(s, t, p) || SchedulerDrops(s, t, p) {
    } else {
    }
  }

  lemma WakeStepSleeper(s: State, t: State, p: nat, q: nat)
    requires s.Shape() && Spinlocks(s) && Channels(s) && t.Shape() && WakeStep(s, t, p) && s.Proc(q) && t.Proc(q) &&
               Sleeper(t, q)
    ensures Sleeper(s, q) && t.pc[q] == s.pc[q]
    ensures !(s.pc[p] == Visiting(s.pc[q].l, q) && Leave(s, t, p))
  {
  }

  lemma LockStepNoneLost(s: State, t: State, p: nat)
    requires s.Shape() && Spinlocks(s) && NoneLost(s) && LockStep(s, t, p) && t.Shape() && Spinlocks(t) &&
               |t.pc| == |s.pc|
    ensures NoneLost(t)
  {
    LockStepSeenHeld(s, t, p);
    hide LockStep, Awaited, Sleeper, SeenHeld;
    forall q | t.Proc(q) && Sleeper(t, q)
      ensures Awaited(t, t.pc[q].l, q)
    {
      LockStepSleeper(s, t, p, q);
      LockStepAwaits(s, t, p, s.pc[q].l, q);
    }
  }

  lemma SleepStepNoneLost(s: State, t: State, p: nat)
    requires s.Shape() && Spinlocks(s) && NoneLost(s) && SleepStep(s, t, p) && t.Shape() && Spinlocks(t) &&
               |t.pc| == |s.pc|
    ensures NoneLost(t)
  {
    OtherStepSeenHeld(s, t, p);
    hide SleepStep, Sleeper, SeenHeld;
    forall q | t.Proc(q) && Sleeper(t, q)
      ensures Awaited(t, t.pc[q].l, q)
    {
      SleepStepSleeper(s, t, p, q);
      SleepStepAwaits(s, t, p, s.pc[q].l, q);
    }
  }

  lemma WakeStepNoneLost(s: State, t: State, p: nat)
    requires s.Shape() && Spinlocks(s) && Channels(s) && NoneLost(s) && WakeStep(s, t, p) && t.Shape() &&
               Spinlocks(t) && |t.pc| == |s.pc|
    ensures NoneLost(t)
  {
    OtherStepSeenHeld(s, t, p);
    hide WakeStep, Awaited, Sleeper, SeenHeld, Channels;
    forall q | t.Proc(q) && Sleeper(t, q)
      ensures Awaited(t, t.pc[q].l, q)
    {
      WakeStepSleeper(s, t, p, q);
      WakeStepAwaits(s, t, p, s.pc[q].l, q);
    }
  }

  /** Every step keeps every invariant. */
  lemma StepKeeps(s: State, t: State, p: nat)
    requires Inv(s) && StepBy(s, t, p)
    ensures Inv(t)
  {
    hide LockStep, SleepStep, WakeStep, Spinlocks, Owned, Holding, Channels, NoneLost;
    StepOwned(s, t, p);
    if LockStep(s, t, p) {
      LockStepMoves(s, t, p);
      MovedKeeps(s, t, p);
      LockStepHolding(s, t, p);
      LockStepChannels(s, t, p);
      LockStepNoneLost(s, t, p);
    } else if SleepStep(s, t, p) {
      SleepStepMoves(s, t, p);
      MovedKeeps(s, t, p);
      OtherStepHolding(s, t, p);
      SleepStepChannels(s, t, p);
      SleepStepNoneLost(s, t, p);
    } else {
      WakeStepMoves(s, t, p);
      MovedKeeps(s, t, p);
      OtherStepHolding(s, t, p);
      WakeStepChannels(s, t, p);
      WakeStepNoneLost(s, t, p);
    }
  }

  // ----- all runs

  /** Everyone outside, every lock free. */
  ghost predicate Initial(s: State) {
    && s.Shape()
    && (forall p :: s.Proc(p) ==> s.pc[p].Out? && s.held[p] == {} && s.run[p].Running? && s.plock[p] == FREE)
    && (forall l :: s.Lock(l) ==> s.spin[l] == FREE && !s.locked[l] && s.pid[l] == 0)
  }

  ghost predicate Step(s: State, t: State) { s.Shape() && exists p: nat :: StepBy(s, t, p) }

  ghost predicate IsRun(run: seq<State>) {
    |run| > 0 && if |run| == 1 then Initial(run[0]) else IsRun(run[..|run| - 1]) && Step(run[|run| - 2], run[|run| - 1])
  }

  lemma {:induction false} RunKeeps(run: seq<State>)
    requires IsRun(run)
    ensures Inv(run[|run| - 1])
  {
    hide Inv, StepBy, Initial;
    var n := |run| - 1;
    if n == 0 {
      InitialInv(run[0]);
    } else {
      RunKeeps(run[..n]);
      var p: nat :| StepBy(run[n - 1], run[n], p);
      StepKeeps(run[n - 1], run[n], p);
    }
  }

  lemma InitialInv(s: State)
    requires Initial(s)
    ensures Inv(s)
  {
  }

  ghost predicate Reachable(s: State) { exists run: seq<State> :: IsRun(run) && run[|run| - 1] == s }

  lemma ReachableInv(s: State)
    requires Reachable(s)
    ensures Inv(s)
  {
    var run :| IsRun(run) && run[|run| - 1] == s;
    RunKeeps(run);
  }

  /** In every reachable state a sleeplock is held by at most one process, the one its pid names. */
  lemma MutualExclusion(s: State, p: nat, q: nat, l: nat)
    requires Reachable(s)
    ensures s.Shape()
    ensures s.Proc(p) && s.Proc(q) && l in s.held[p] && l in s.held[q] ==>
              p == q && s.Lock(l) && s.locked[l] && s.pid[l] == p + 1
  {
    hide Reachable, Spinlocks, Channels, NoneLost, Holding;
    ReachableInv(s);
  }

  /** holdingsleep */
  predicate HoldingSleep(s: State, p: nat, l: nat)
    requires s.Shape() && s.Lock(l)
  {
    s.locked[l] && s.pid[l] == p + 1
  }

  /** holdingsleep tells each process exactly whether it holds the sleeplock. */
  lemma HoldingSleepExact(s: State, p: nat, l: nat)
    requires Reachable(s) && s.Proc(p) && s.Lock(l)
    ensures s.Shape() && (HoldingSleep(s, p, l) <==> l in s.held[p])
  {
    hide Reachable, Spinlocks, Channels, NoneLost, Holding;
    ReachableInv(s);
  }

  /**
   No wakeup is lost: in every reachable state, a process asleep on a sleeplock waits for one
   that some process holds, or its waker has yet to reach it.
   */
  lemma NoLostWakeup(s: State, q: nat)
    requires Reachable(s)
    ensures s.Shape()
    ensures s.Proc(q) && s.run[q].Sleeping? ==>
              exists l: nat, p: nat :: s.Lock(l) && s.chan[q] == l + 1 && s.Proc(p) &&
                  (l in s.held[p] || s.pc[p].WillVisit(l, q))
  {
    hide Reachable;
    ReachableInv(s);
    if s.Proc(q) && s.run[q].Sleeping? {
      SleeperAwaited(s, q);
      var l := s.pc[q].l;
      if s.locked[l] {
        assert l in s.held[s.pid[l] - 1];
      }
    }
  }

  lemma SleeperAwaited(s: State, q: nat)
    requires Inv(s) && s.Proc(q) && s.run[q].Sleeping?
    ensures (s.pc[q].Parked? || s.pc[q].Off?) && s.Lock(s.pc[q].l) && s.chan[q] == s.pc[q].l + 1 &&
              Awaited(s, s.pc[q].l, q)
  {
  }

  /**
   A sleeping process is woken by no step but kill and the visit of a waker that names the
   channel it sleeps on; and that visit wakes it.
   */
  lemma WokenExactly(s: State, t: State, p: nat, q: nat)
    requires s.Shape() && StepBy(s, t, p) && s.Proc(q) && s.run[q].Sleeping? && t.pc != s.pc
    ensures |t.run| == |s.run|
    ensures !t.run[q].Sleeping? <==> s.pc[p].Visiting? && s.pc[p].i == q && s.chan[q] == s.pc[p].l + 1
  {
    if WakeStep(s, t, p) {
      hide LockStep, SleepStep;
      if Leave(s, t, p) {
        assert t.run[q] == if s.pc[p].i == q && s.chan[q] == s.pc[p].l + 1 then Runnable else s.run[q];
      } else {
        assert t.run == s.run;
      }
    } else if LockStep(s, t, p) {
      hide SleepStep, WakeStep;
      assert t.run == s.run && !s.pc[p].Visiting?;
    } else {
      hide LockStep, WakeStep;
      assert !s.pc[p].Visiting? && t.run[q].Sleeping?;
    }
  }

  /**
   acquiresleep takes a lock exactly when it finds it free, releasesleep always frees it, and no
   other step does either.
   */
  lemma TakenExactly(s: State, t: State, p: nat, l: nat)
    requires s.Shape() && StepBy(s, t, p) && s.Proc(p) && s.Lock(l)
    ensures |t.locked| == |s.locked| && |t.held| == |s.held|
    ensures (t.locked[l] && !s.locked[l]) <==> s.pc[p] == Testing(l) && t.pc != s.pc && !s.locked[l]
    ensures s.locked[l] && !t.locked[l] ==> s.pc[p] == Releasing(l)
    ensures s.pc[p] == Testing(l) && t.pc != s.pc ==>
              if s.locked[l] then t.pc[p] == ToSleep(l) && t.held == s.held
              else t.pc[p] == Won(l) && t.held == s.held[p := s.held[p] + {l}] && t.pid[l] == p + 1
    ensures s.pc[p] == Releasing(l) && t.pc != s.pc ==> !t.locked[l] && t.held == s.held[p := s.held[p] - {l}]
  {
    if LockStep(s, t, p) {
      hide SleepStep, WakeStep;
      assert Test(s, t, p) || Clear(s, t, p) || (t.locked == s.locked && t.held == s.held);
    } else {
      hide LockStep;
      assert t.locked == s.locked && t.held == s.held;
    }
  }

  // ----- nobody is stuck

  /** Spinlocks are free or held by a process or, a process's own one, by a scheduler. */
  ghost predicate HeldBySome(s: State)
    requires s.Shape()
  {
    && (forall l {:trigger s.spin[l]} :: s.Lock(l) ==> s.spin[l] == FREE || s.Proc(s.spin[l]))
    && (forall q {:trigger s.plock[q]} :: s.Proc(q) ==>
          s.plock[q] == FREE || s.plock[q] == SCHED || s.Proc(s.plock[q]))
  }

  lemma MovedHeld(s: State, t: State, p: nat)
    requires s.Shape() && t.Shape() && HeldBySome(s) && Moved(s, t, p)
    ensures HeldBySome(t)
  {
    hide Pc.Spins, Pc.Guards;
    forall l | s.Lock(l)
      ensures t.spin[l] == FREE || t.Proc(t.spin[l])
    {
      assert t.spin[l] == p || t.spin[l] == FREE || t.spin[l] == s.spin[l];
    }
    forall q | s.Proc(q)
      ensures t.plock[q] == FREE || t.plock[q] == SCHED || t.Proc(t.plock[q])
    {
      assert t.plock[q] == p || t.plock[q] == FREE || t.plock[q] == SCHED || t.plock[q] == s.plock[q];
    }
  }

  /** wakeup is at one of the processes, or past them. */
  ghost predicate InTable(s: State) {
    forall p {:trigger s.pc[p]} :: s.Proc(p) ==>
      (s.pc[p].Waking? ==> s.pc[p].i <= |s.pc|) && (s.pc[p].Visiting? ==> s.pc[p].i < |s.pc|)
  }

  lemma StepInTable(s: State, t: State, p: nat)
    requires s.Shape() && InTable(s) && StepBy(s, t, p)
    ensures InTable(t)
  {
    if LockStep(s, t, p) {
      hide SleepStep, WakeStep;
      assert |t.pc| == |s.pc| && (forall q :: s.Proc(q) && q != p ==> t.pc[q] == s.pc[q]) && !t.pc[p].Visiting?;
      assert t.pc[p].Waking? ==> t.pc[p].i == 0;
    } else if SleepStep(s, t, p) {
      hide LockStep, WakeStep;
      assert |t.pc| == |s.pc| && (forall q :: s.Proc(q) && q != p ==> t.pc[q] == s.pc[q]);
      assert t.pc == s.pc || (!t.pc[p].Waking? && !t.pc[p].Visiting?);
    } else {
      hide LockStep, SleepStep;
      assert |t.pc| == |s.pc| && forall q :: s.Proc(q) && q != p ==> t.pc[q] == s.pc[q];
    }
  }

  lemma {:induction false} RunHeld(run: seq<State>)
    requires IsRun(run)
    ensures Inv(run[|run| - 1]) && HeldBySome(run[|run| - 1]) && InTable(run[|run| - 1])
  {
    hide StepBy, Moved, Owned, Holding, Channels, NoneLost, Spinlocks;
    var n := |run| - 1;
    RunKeeps(run);
    if n > 0 {
      RunHeld(run[..n]);
      var p: nat :| StepBy(run[n - 1], run[n], p);
      StepMoves(run[n - 1], run[n], p);
      MovedHeld(run[n - 1], run[n], p);
      StepInTable(run[n - 1], run[n], p);
    }
  }

  lemma StepMoves(s: State, t: State, p: nat)
    requires Inv(s) && StepBy(s, t, p)
    ensures t.Shape() && Moved(s, t, p)
  {
    hide LockStep, SleepStep, WakeStep, Spinlocks, Owned, Holding, Channels, NoneLost, Moved;
    if LockStep(s, t, p) {
      LockStepMoves(s, t, p);
    } else if SleepStep(s, t, p) {
      SleepStepMoves(s, t, p);
    } else {
      WakeStepMoves(s, t, p);
    }
  }

  /** Process p can go on inside the lock and scheduler code. */
  ghost predicate GoesOn(s: State, p: nat)
    requires s.Shape() && s.Proc(p)
  {
    !s.pc[p].Out? && exists t :: StepBy(s, t, p) && !Kill(s, t, p)
  }

  lemma StepGoesOn(s: State, t: State, p: nat)
    requires s.Shape() && s.Proc(p) && !s.pc[p].Out? && t.pc != s.pc
    requires LockStep(s, t, p) || SleepStep(s, t, p) || WakeStep(s, t, p)
    ensures GoesOn(s, p)
  {
    hide LockStep, SleepStep, WakeStep;
    assert StepBy(s, t, p);
  }

  lemma SleepGoesOn(s: State, p: nat)
    requires s.Shape() && s.Proc(p) && !s.pc[p].Out? && s.Lock(s.pc[p].l)
    requires s.pc[p].BothLocks? || s.pc[p].Parking? || s.pc[p].Parked? || s.pc[p].Back?
    ensures GoesOn(s, p)
  {
    hide LockStep, WakeStep, GoesOn;
    var c, l := s.pc[p], s.pc[p].l;
    var t: State;
    if c.BothLocks? {
      t := s.(spin := s.spin[l := FREE], pc := s.pc[p := Parking(l)]);
      assert LetGo(s, t, p);
    } else if c.Parking? {
      t := s.(chan := s.chan[p := l + 1], run := s.run[p := Sleeping], pc := s.pc[p := Parked(l)]);
      assert Park(s, t, p);
    } else if c.Parked? {
      t := s.(plock := s.plock[p := SCHED], pc := s.pc[p := Off(l)]);
      assert SwitchOut(s, t, p);
    } else {
      t := s.(chan := s.chan[p := 0], plock := s.plock[p := FREE], pc := s.pc[p := Wants(l)]);
      assert Tidy(s, t, p);
    }
    assert t.pc[p] != s.pc[p];
    StepGoesOn(s, t, p);
  }

  lemma VisitGoesOn(s: State, p: nat)
    requires s.Shape() && s.Proc(p) && s.pc[p].Visiting? && s.Proc(s.pc[p].i)
    ensures GoesOn(s, p)
  {
    hide LockStep, SleepStep, GoesOn;
    var l, i := s.pc[p].l, s.pc[p].i;
    var t := s.(run := if s.run[i].Sleeping? && s.chan[i] == l + 1 then s.run[i := Runnable] else s.run,
                plock := s.plock[i := FREE], pc := s.pc[p := Waking(l, i + 1)]);
    assert Leave(s, t, p);
    assert t.pc[p] != s.pc[p];
    StepGoesOn(s, t, p);
  }

  lemma OwnLockGoesOn(s: State, q: nat)
    requires Inv(s) && HeldBySome(s) && s.Proc(q) && s.plock[q] != FREE
    ensures exists r: nat :: s.Proc(r) && GoesOn(s, r)
  {
    hide Owned, Holding, Channels, NoneLost, LockStep, WakeStep;
    if s.plock[q] == SCHED {
      SchedulerGoesOn(s, q);
    } else {
      hide SleepStep, GoesOn;
      var r: nat := s.plock[q];
      assert s.pc[r].Guards(r, q);
      if s.pc[r].Visiting? { VisitGoesOn(s, r); } else { SleepGoesOn(s, r); }
    }
  }

  lemma SchedulerGoesOn(s: State, q: nat)
    requires s.Shape() && s.Proc(q) && s.plock[q] == SCHED && s.pc[q].Off?
    ensures GoesOn(s, q)
  {
    var t := s.(plock := s.plock[q := FREE]);
    assert SchedulerDrops(s, t, q);
    assert SleepStep(s, t, q);
    hide LockStep, SleepStep, WakeStep;
    assert t.plock[q] != s.plock[q];
    assert StepBy(s, t, q);
  }

  /** A step that needs the p->lock of process q, free. */
  lemma TakesOwn(s: State, p: nat)
    requires s.Shape() && s.Proc(p)
    requires (s.pc[p].ToSleep? && s.plock[p] == FREE)
             || (s.pc[p].Off? && s.plock[p] == FREE && s.run[p].Runnable?)
             || (s.pc[p].Waking? && s.Proc(s.pc[p].i) && s.plock[s.pc[p].i] == FREE)
    ensures GoesOn(s, p)
  {
    hide LockStep, GoesOn;
    var c, l := s.pc[p], s.pc[p].l;
    var t: State;
    if c.ToSleep? {
      t := s.(plock := s.plock[p := p], pc := s.pc[p := BothLocks(l)]);
      assert TakeOwn(s, t, p);
    } else if c.Off? {
      t := s.(plock := s.plock[p := p], run := s.run[p := Running], pc := s.pc[p := Back(l)]);
      assert SwitchIn(s, t, p);
    } else {
      t := s.(plock := s.plock[c.i := p], pc := s.pc[p := Visiting(l, c.i)]);
      assert Visit(s, t, p);
    }
    assert t.pc[p] != s.pc[p];
    StepGoesOn(s, t, p);
  }

  /** A step of the sleeplock code that needs no lock that is not held already. */
  lemma LockCodeGoesOn(s: State, p: nat)
    requires s.Shape() && s.Proc(p) && !s.pc[p].Out? && s.Lock(s.pc[p].l)
    requires s.pc[p].Testing? || s.pc[p].Won? || s.pc[p].Releasing? || (s.pc[p].Waking? && s.pc[p].i == |s.pc|)
             || ((s.pc[p].Wants? || s.pc[p].WantsOut?) && s.spin[s.pc[p].l] == FREE)
    ensures GoesOn(s, p)
  {
    hide SleepStep, WakeStep, GoesOn;
    var c, l := s.pc[p], s.pc[p].l;
    var t: State;
    if c.Testing? {
      t := if s.locked[l] then s.(pc := s.pc[p := ToSleep(l)])
           else s.(locked := s.locked[l := true], pid := s.pid[l := p + 1], held := s.held[p := s.held[p] + {l}],
                   pc := s.pc[p := Won(l)]);
      assert Test(s, t, p);
    } else if c.Releasing? {
      t := s.(locked := s.locked[l := false], pid := s.pid[l := 0], held := s.held[p := s.held[p] - {l}],
              pc := s.pc[p := Waking(l, 0)]);
      assert Clear(s, t, p);
    } else if c.Won? || c.Waking? {
      t := s.(spin := s.spin[l := FREE], pc := s.pc[p := Out]);
      assert DropSpin(s, t, p);
    } else {
      t := s.(spin := s.spin[l := p], pc := s.pc[p := if c.Wants? then Testing(l) else Releasing(l)]);
      assert TakeSpin(s, t, p);
    }
    assert t.pc[p] != s.pc[p];
    StepGoesOn(s, t, p);
  }

  /** The holder of a spinlock, or whoever it waits for, goes on. */
  lemma SpinnerGoesOn(s: State, p: nat)
    requires Inv(s) && HeldBySome(s) && InTable(s) && s.Proc(p) && !s.pc[p].Out? && s.pc[p].Spins(s.pc[p].l)
    ensures exists r: nat :: s.Proc(r) && GoesOn(s, r)
  {
    hide Owned, Holding, Channels, NoneLost, LockStep, WakeStep, SleepStep, GoesOn;
    var c := s.pc[p];
    assert s.Lock(c.l);
    if c.ToSleep? {
      if s.plock[p] == FREE { TakesOwn(s, p); } else { OwnLockGoesOn(s, p); }
    } else if c.BothLocks? {
      SleepGoesOn(s, p);
    } else if c.Visiting? {
      VisitGoesOn(s, p);
    } else if c.Waking? && c.i < |s.pc| {
      if s.plock[c.i] == FREE { TakesOwn(s, p); } else { OwnLockGoesOn(s, c.i); }
    } else {
      LockCodeGoesOn(s, p);
    }
  }

  /**
   No deadlock inside the lock and scheduler code: in every reachable state in which some
   process is in it, other than asleep and switched out, some process can go on.
   */
  lemma NobodyStuck(s: State, p: nat)
    requires Reachable(s)
    ensures s.Shape()
    ensures s.Proc(p) && !s.pc[p].Out? && !(s.pc[p].Off? && s.run[p].Sleeping?) ==>
              exists r: nat :: s.Proc(r) && GoesOn(s, r)
  {
    var run :| IsRun(run) && run[|run| - 1] == s;
    RunHeld(run);
    hide IsRun, GoesOn, Owned, Holding, NoneLost;
    if s.Proc(p) && !s.pc[p].Out? && !(s.pc[p].Off? && s.run[p].Sleeping?) {
      var c := s.pc[p];
      if c.Wants? || c.WantsOut? {
        if s.spin[c.l] == FREE { LockCodeGoesOn(s, p); } else { SpinnerGoesOn(s, s.spin[c.l]); }
      } else if c.Off? {
        if s.plock[p] == FREE { TakesOwn(s, p); } else { OwnLockGoesOn(s, p); }
      } else if c.Parking? || c.Parked? || c.Back? {
        SleepGoesOn(s, p);
      } else {
        SpinnerGoesOn(s, p);
      }
    }
  }
}
