/**
 The rebuilding of an L0 table from PTDUP's records (kernel/recovery_handler_pagetable.c), and
 what it makes of the records of any number of uvmalloc calls. The slots of a list of records
 are a sequence.
 */
module PtRebuild {
  import opened Params
  import opened PageTable
  import opened PtRecords

  /** A list slot that holds a record. */
  predicate Used(e: nat) { e != 0 && e != JUNK }

  const RWXDV := 0x8F

  /** The entry rebuilt for page j of run e. */
  function RunPte(e: nat, j: nat): nat {
    (if OrderOf(e) == 1 then PpnOf(e) + j * 0x400 else Sub64(PpnOf(e), j * 0x400)) + UbOf(e) + RWXDV
  }

  /** flags | PTE_D | PTE_V */
  function DirtyValid(flags: nat): nat {
    flags + (if flags / 0x80 % 2 == 0 then 0x80 else 0) + (if flags % 2 == 0 then 1 else 0)
  }

  /** The entry rebuilt from the single-page record e. */
  function PagePte(e: nat): nat { PpnOf(e) + DirtyValid(LowBits(e)) }

  lemma PteOdd(e: nat, j: nat)
    ensures V(RunPte(e, j)) && V(PagePte(e))
  {
    EvenPpn(e, j);
    FlagsOdd(LowBits(e));
    var b := e / 0x200 % 2;
    assert UbOf(e) == 2 * (8 * b);
    hide OrderOf, PpnOf, UbOf, LowBits, Sub64, DirtyValid, V;
    if OrderOf(e) == 1 {
      OddSum(PpnOf(e) / 2 + j * 0x200, 8 * b + 0x47);
    } else {
      OddSum(Sub64(PpnOf(e), j * 0x400) / 2, 8 * b + 0x47);
    }
    OddSum(PpnOf(e) / 2, DirtyValid(LowBits(e)) / 2);
  }

  lemma OddSum(m: nat, n: nat)
    ensures V(2 * m + (2 * n + 1))
  {
    hide V;
    Odd(m + n);
    assert 2 * m + (2 * n + 1) == 2 * (m + n) + 1;
  }

  lemma FlagsOdd(flags: nat)
    ensures DirtyValid(flags) == 2 * (DirtyValid(flags) / 2) + 1
  {
    assert DirtyValid(flags) == 2 * (flags / 2) + 1 + (if flags / 0x80 % 2 == 0 then 2 * 0x40 else 0);
  }

  lemma EvenPpn(e: nat, j: nat)
    ensures PpnOf(e) == 2 * (PpnOf(e) / 2) && PpnOf(e) < W
    ensures Sub64(PpnOf(e), j * 0x400) == 2 * (Sub64(PpnOf(e), j * 0x400) / 2)
  {
    var a := PpnOf(e);
    assert a == 2 * (e % LIMIT / 0x800 * 0x100);
    hide PpnOf;
    var d := a - j * 0x400;
    assert d == d / W * W + d % W;
    assert d % W == 2 * (a / 2 - j * 0x200 - d / W * 0x8000_0000_0000_0000);
  }

  /** reconst_from_PTDS puts run e into the table for sva so that entry k gets one of its pages. */
  predicate Placed(e: nat, sva: nat, k: nat) {
    Used(e) && sva <= VaOf(e) <= sva + REGION && PX(0, VaOf(e)) <= k < PX(0, VaOf(e)) + LowBits(e)
  }

  /** The same, of the record of one page. */
  predicate PageAt(e: nat, sva: nat, k: nat) { Used(e) && VaOf(e) == sva + k * PGSIZE }

  /** Some of the first n runs is put at entry k. */
  ghost predicate SomeRun(ptds: seq<nat>, sva: nat, n: nat, k: nat)
    requires n <= |ptds|
  {
    exists m :: 0 <= m < n && Placed(ptds[m], sva, k)
  }

  ghost predicate SomePage(pted: seq<nat>, sva: nat, n: nat, k: nat)
    requires n <= |pted|
  {
    exists m :: 0 <= m < n && PageAt(pted[m], sva, k)
  }

  // No two of the first records are put at the same entry.

  ghost predicate RunsOnce(ptds: seq<nat>, sva: nat, n: nat)
    requires n <= |ptds|
  {
    forall k, i, j :: 0 <= k < NPTE && 0 <= i < j < n ==> !Placed(ptds[i], sva, k) || !Placed(ptds[j], sva, k)
  }

  ghost predicate PagesOnce(ptds: seq<nat>, pted: seq<nat>, sva: nat, n: nat)
    requires n <= |pted|
  {
    && (forall k, i, j :: 0 <= k < NPTE && 0 <= i < j < n ==> !PageAt(pted[i], sva, k) || !PageAt(pted[j], sva, k))
    && (forall k, i, j :: 0 <= k < NPTE && 0 <= i < |ptds| && 0 <= j < n ==>
          !Placed(ptds[i], sva, k) || !PageAt(pted[j], sva, k))
  }

  ghost predicate Once(ptds: seq<nat>, pted: seq<nat>, sva: nat) {
    RunsOnce(ptds, sva, |ptds|) && PagesOnce(ptds, pted, sva, |pted|)
  }

  /** No run is written past the end of the table. */
  ghost predicate Inside(ptds: seq<nat>, sva: nat, n: nat)
    requires n <= |ptds|
  {
    forall m {:trigger ptds[m]} :: 0 <= m < n && Used(ptds[m]) && sva <= VaOf(ptds[m]) <= sva + REGION ==>
      PX(0, VaOf(ptds[m])) + LowBits(ptds[m]) <= NPTE
  }

  /** Each entry of page is the one its record gives, and empty if it has none. */
  ghost predicate Given(ptds: seq<nat>, pted: seq<nat>, sva: nat, page: Page) {
    && RunsGiven(ptds, sva, |ptds|, page) && PagesGiven(pted, sva, |pted|, page)
    && forall k {:trigger page[k]} :: 0 <= k < NPTE ==>
         (page[k] != 0 <==> SomeRun(ptds, sva, |ptds|, k) || SomePage(pted, sva, |pted|, k))
  }

  ghost predicate RunsGiven(ptds: seq<nat>, sva: nat, n: nat, page: Page)
    requires n <= |ptds|
  {
    forall k, m :: 0 <= k < NPTE && 0 <= m < n && Placed(ptds[m], sva, k) ==>
      page[k] == RunPte(ptds[m], k - PX(0, VaOf(ptds[m])))
  }

  ghost predicate PagesGiven(pted: seq<nat>, sva: nat, n: nat, page: Page)
    requires n <= |pted|
  {
    forall k, m :: 0 <= k < NPTE && 0 <= m < n && PageAt(pted[m], sva, k) ==> page[k] == PagePte(pted[m])
  }

  lemma Sub64Step(a: nat, j: nat)
    ensures Sub64(Sub64(a, j * 0x400), 0x400) == Sub64(a, (j + 1) * 0x400)
  {
    var d := a - j * 0x400;
    assert d == d / W * W + d % W;
    ModShift(d % W - 0x400, d / W);
  }

  lemma ModShift(x: int, q: int)
    ensures (q * W + x) % W == x % W
  {
    assert q * W + x == (q + x / W) * W + x % W;
  }

  /**
   The inner loop of reconst_from_PTDS: the pages of run e go to entries num on; taken entries
   are reported. ok is false when it writes past the end of the table.
   */
  method FillRun(e: nat, page: Page, num: nat) returns (ok: bool, res: int, page': Page)
    requires num < NPTE
    ensures ok <==> num + LowBits(e) <= NPTE
    ensures ok ==> forall k :: 0 <= k < NPTE ==>
              page'[k] == if num <= k < num + LowBits(e) && page[k] == 0 then RunPte(e, k - num) else page[k]
    ensures ok ==> res == if exists k :: num <= k < num + LowBits(e) && page[k] != 0 then -1 else 0
  {
    hide LowBits, OrderOf, PpnOf, UbOf, Sub64;
    page', res := page, 0;
    var size, order, j := LowBits(e), OrderOf(e), 0;
    var ppn := PpnOf(e);
    EvenPpn(e, 0);
    SubNone(ppn);
    while j < size
      invariant 0 <= j <= size && num + j <= NPTE
      invariant ppn == if order == 1 then PpnOf(e) + j * 0x400 else Sub64(PpnOf(e), j * 0x400)
      invariant forall k :: 0 <= k < NPTE ==>
                  page'[k] == if num <= k < num + j && page[k] == 0 then RunPte(e, k - num) else page[k]
      invariant res == if exists k :: num <= k < num + j && page[k] != 0 then -1 else 0
    {
      if num + j == NPTE { return false, res, page'; }
      if page'[num + j] != 0 {
        res := -1;
        assert page[num + j] != 0;
      } else {
        page' := page'[num + j := ppn + UbOf(e) + RWXDV];
      }
      Sub64Step(PpnOf(e), j);
      ppn := if order == 1 then ppn + 0x400 else Sub64(ppn, 0x400);
      j := j + 1;
    }
    ok := true;
  }

  lemma SubNone(a: nat)
    requires a < W
    ensures Sub64(a, 0) == a
  {
  }

  /** What reconst_from_PTDS has done after n slots. */
  ghost predicate RunsDone(ptds: seq<nat>, sva: nat, n: nat, res: int, page: Page) {
    && n <= |ptds| && (res == 0 || res == -1) && (res == 0 <==> RunsOnce(ptds, sva, n)) && Inside(ptds, sva, n)
    && (forall k {:trigger page[k]} :: 0 <= k < NPTE ==> (page[k] != 0 <==> SomeRun(ptds, sva, n, k)))
    && (res == 0 ==> RunsGiven(ptds, sva, n, page))
  }

  /** reconst_from_PTDS on a blank table, over the slots of the list. */
  method FromPtds(ptds: seq<nat>, sva: nat) returns (ok: bool, res: int, page: Page)
    ensures ok <==> Inside(ptds, sva, |ptds|)
    ensures ok ==> RunsDone(ptds, sva, |ptds|, res, page)
  {
    hide Used, VaOf, LowBits, PX, RunPte, RunsDone, Inside;
    page, res := ZeroPage(), 0;
    NoRunsDone(ptds, sva);
    var i := 0;
    while i < |ptds|
      invariant 0 <= i <= |ptds|
      invariant RunsDone(ptds, sva, i, res, page)
    {
      var e := ptds[i];
      if Used(e) && sva <= VaOf(e) <= sva + REGION {
        var r, before := 0, page;
        ok, r, page := FillRun(e, page, PX(0, VaOf(e)));
        if !ok {
          NotInside(ptds, sva, i);
          return;
        }
        RunDone(ptds, sva, i, res, before, r, page);
        if r != 0 { res := -1; }
      } else {
        NoRunDone(ptds, sva, i, res, page);
      }
      i := i + 1;
    }
    ok := true;
    AllInside(ptds, sva, res, page);
  }

  lemma AllInside(ptds: seq<nat>, sva: nat, res: int, page: Page)
    requires RunsDone(ptds, sva, |ptds|, res, page)
    ensures Inside(ptds, sva, |ptds|)
  {
  }

  lemma NotInside(ptds: seq<nat>, sva: nat, i: nat)
    requires i < |ptds| && Used(ptds[i]) && sva <= VaOf(ptds[i]) <= sva + REGION
    requires PX(0, VaOf(ptds[i])) + LowBits(ptds[i]) > NPTE
    ensures !Inside(ptds, sva, |ptds|)
  {
    hide Used, VaOf, LowBits, PX;
  }

  lemma NoRunsDone(ptds: seq<nat>, sva: nat)
    ensures RunsDone(ptds, sva, 0, 0, ZeroPage())
  {
  }

  lemma NoRunDone(ptds: seq<nat>, sva: nat, i: nat, res: int, page: Page)
    requires i < |ptds| && RunsDone(ptds, sva, i, res, page) && !(Used(ptds[i]) && sva <= VaOf(ptds[i]) <= sva + REGION)
    ensures RunsDone(ptds, sva, i + 1, res, page)
  {
    assert forall k :: 0 <= k < NPTE ==> !Placed(ptds[i], sva, k);
    hide Used, VaOf, LowBits, PX, RunPte, Placed;
  }

  lemma RunDone(ptds: seq<nat>, sva: nat, i: nat, res: int, before: Page, r: int, page: Page)
    requires i < |ptds| && RunsDone(ptds, sva, i, res, before)
    requires Used(ptds[i]) && sva <= VaOf(ptds[i]) <= sva + REGION
    requires PX(0, VaOf(ptds[i])) + LowBits(ptds[i]) <= NPTE
    requires var num, e := PX(0, VaOf(ptds[i])), ptds[i];
             && (r == if exists k :: num <= k < num + LowBits(e) && before[k] != 0 then -1 else 0)
             && forall k :: 0 <= k < NPTE ==>
                  page[k] == if num <= k < num + LowBits(e) && before[k] == 0 then RunPte(e, k - num) else before[k]
    ensures RunsDone(ptds, sva, i + 1, if r != 0 then -1 else res, page)
  {
    var e := ptds[i];
    var num := PX(0, VaOf(e));
    assert forall k :: 0 <= k < NPTE ==> (Placed(e, sva, k) <==> num <= k < num + LowBits(e));
    forall j: nat
      ensures RunPte(e, j) != 0
    {
      PteOdd(e, j);
    }
    hide Used, VaOf, LowBits, PX, RunPte, Placed;
    if r != 0 {
      var k :| num <= k < num + LowBits(e) && before[k] != 0;
      assert Placed(e, sva, k) && SomeRun(ptds, sva, i, k);
    } else {
      assert forall k :: 0 <= k < NPTE && Placed(e, sva, k) ==> before[k] == 0;
      assert forall k :: 0 <= k < NPTE && Placed(e, sva, k) ==> !SomeRun(ptds, sva, i, k);
    }
  }

  /** What reconst_from_PTED has done after n slots. */
  ghost predicate PagesDone(ptds: seq<nat>, pted: seq<nat>, sva: nat, n: nat, res: int, page: Page) {
    && n <= |pted| && (res == 0 || res == -1) && (res == 0 <==> PagesOnce(ptds, pted, sva, n))
    && (forall k {:trigger page[k]} :: 0 <= k < NPTE ==>
          (page[k] != 0 <==> SomeRun(ptds, sva, |ptds|, k) || SomePage(pted, sva, n, k)))
    && (res == 0 ==> RunsGiven(ptds, sva, |ptds|, page) && PagesGiven(pted, sva, n, page))
  }

  /** reconst_from_PTED after reconst_from_PTDS, over the slots of the list. */
  method FromPted(ghost ptds: seq<nat>, pted: seq<nat>, sva: nat, page0: Page) returns (res: int, page: Page)
    requires sva % REGION == 0 && RunsDone(ptds, sva, |ptds|, 0, page0)
    ensures PagesDone(ptds, pted, sva, |pted|, res, page)
  {
    hide Used, VaOf, PX, PagePte, RunsDone, PagesDone;
    page, res := page0, 0;
    NoPagesDone(ptds, pted, sva, page);
    var i := 0;
    while i < |pted|
      invariant 0 <= i <= |pted|
      invariant PagesDone(ptds, pted, sva, i, res, page)
    {
      var e := pted[i];
      var before := page;
      if Used(e) && sva <= VaOf(e) < sva + REGION {
        var r := 0;
        if page[PX(0, VaOf(e))] != 0 {
          r := -1;
        } else {
          page := page[PX(0, VaOf(e)) := PagePte(e)];
        }
        PageDone(ptds, pted, sva, i, res, before, r, page);
        if r != 0 { res := -1; }
      } else {
        NoPageDone(ptds, pted, sva, i, res, page);
      }
      i := i + 1;
    }
  }

  lemma NoPagesDone(ptds: seq<nat>, pted: seq<nat>, sva: nat, page: Page)
    requires RunsDone(ptds, sva, |ptds|, 0, page)
    ensures PagesDone(ptds, pted, sva, 0, 0, page)
  {
  }

  lemma NoPageDone(ptds: seq<nat>, pted: seq<nat>, sva: nat, i: nat, res: int, page: Page)
    requires sva % REGION == 0 && i < |pted| && PagesDone(ptds, pted, sva, i, res, page)
    requires !(Used(pted[i]) && sva <= VaOf(pted[i]) < sva + REGION)
    ensures PagesDone(ptds, pted, sva, i + 1, res, page)
  {
    forall k | 0 <= k < NPTE
      ensures !PageAt(pted[i], sva, k)
    {
      VaAligned(pted[i]);
      PageRange(pted[i], sva, k);
    }
    hide PageAt, Placed, RunPte, PagePte, Used, PX, VaOf;
  }

  lemma PageDone(ptds: seq<nat>, pted: seq<nat>, sva: nat, i: nat, res: int, before: Page, r: int, page: Page)
    requires sva % REGION == 0 && i < |pted| && PagesDone(ptds, pted, sva, i, res, before)
    requires Used(pted[i]) && sva <= VaOf(pted[i]) < sva + REGION
    requires var k, e := PX(0, VaOf(pted[i])), pted[i];
             && r == (if before[k] != 0 then -1 else 0)
             && page == if before[k] == 0 then before[k := PagePte(e)] else before
    ensures PagesDone(ptds, pted, sva, i + 1, if r != 0 then -1 else res, page)
  {
    var e := pted[i];
    VaAligned(e);
    forall k | 0 <= k < NPTE
      ensures PageAt(e, sva, k) <==> k == PX(0, VaOf(e))
    {
      PageRange(e, sva, k);
    }
    PteOdd(e, 0);
    hide PageAt, Placed, RunPte, PagePte, Used, PX, VaOf;
    var at := PX(0, VaOf(e));
    PagesOnceMore(ptds, pted, sva, i, at);
    if r == 0 {
      PagesGivenMore(ptds, pted, sva, i, at, res, before, page);
    }
    hide SomeRun, PagesOnce, RunsGiven, PagesGiven;
    assert forall k :: 0 <= k < NPTE ==>
        (SomePage(pted, sva, i + 1, k) <==> SomePage(pted, sva, i, k) || PageAt(e, sva, k));
  }

  lemma PagesOnceMore(ptds: seq<nat>, pted: seq<nat>, sva: nat, i: nat, at: nat)
    requires i < |pted| && at < NPTE && forall k :: 0 <= k < NPTE ==> (PageAt(pted[i], sva, k) <==> k == at)
    ensures PagesOnce(ptds, pted, sva, i + 1) <==>
            PagesOnce(ptds, pted, sva, i) && !SomeRun(ptds, sva, |ptds|, at) && !SomePage(pted, sva, i, at)
  {
    hide PageAt, Placed;
    assert PageAt(pted[i], sva, at);
  }

  lemma PagesGivenMore(ptds: seq<nat>, pted: seq<nat>, sva: nat, i: nat, at: nat, res: int, before: Page, page: Page)
    requires i < |pted| && at < NPTE && forall k :: 0 <= k < NPTE ==> (PageAt(pted[i], sva, k) <==> k == at)
    requires PagesDone(ptds, pted, sva, i, res, before) && before[at] == 0 && page == before[at := PagePte(pted[i])]
    ensures res == 0 ==> RunsGiven(ptds, sva, |ptds|, page) && PagesGiven(pted, sva, i + 1, page)
  {
    hide PageAt, Placed, RunPte, PagePte, PagesOnce, PX, VaOf;
    assert !SomeRun(ptds, sva, |ptds|, at) && !SomePage(pted, sva, i, at);
  }

  lemma Parts(v: nat)
    requires v % PGSIZE == 0
    ensures v == v / REGION * REGION + PX(0, v) * PGSIZE
  {
    var q := v / PGSIZE;
    assert v == q * PGSIZE && q == q / NPTE * NPTE + q % NPTE;
    assert v / REGION == q / NPTE;
  }

  lemma VaAligned(e: nat)
    ensures VaOf(e) % PGSIZE == 0
  {
  }

  /** Where record e lands in the table for sva. */
  lemma PageRange(e: nat, sva: nat, k: nat)
    requires sva % REGION == 0 && k < NPTE && VaOf(e) % PGSIZE == 0
    ensures VaOf(e) == sva + k * PGSIZE <==> sva <= VaOf(e) < sva + REGION && k == PX(0, VaOf(e))
  {
    var v := VaOf(e);
    hide VaOf;
    Parts(v);
    hide PX;
    SameRegion(v / REGION, PX(0, v), sva / REGION, k);
  }

  lemma SameRegion(r: nat, x: nat, s: nat, k: nat)
    requires x < NPTE && k < NPTE
    ensures r * REGION + x * PGSIZE == s * REGION + k * PGSIZE <==> r == s && x == k
    ensures s * REGION <= r * REGION + x * PGSIZE < s * REGION + REGION <==> r == s
  {
  }

  /**
   recovery_L0's two passes over the lists, on a blank table. Each entry becomes what the one
   record put there says. It fails exactly when two records are put at the same entry, and
   writes past the table exactly when a run does not end in it.
   */
  method Rebuild(ptds: seq<nat>, pted: seq<nat>, sva: nat) returns (ok: bool, res: int, page: Page)
    requires sva % REGION == 0
    ensures ok <==> Inside(ptds, sva, |ptds|)
    ensures ok ==> (res == 0 <==> Once(ptds, pted, sva))
    ensures ok && res == 0 ==> Given(ptds, pted, sva, page)
  {
    hide Inside, SomeRun, SomePage, RunsOnce, PagesOnce, RunsGiven, PagesGiven;
    ok, res, page := FromPtds(ptds, sva);
    if ok && res == 0 {
      res, page := FromPted(ptds, pted, sva, page);
    }
  }

  // ----- the records against the live table

  /** Two entries name the same page with the same V, R, W, X and U; the MMU sets A and D by itself. */
  predicate Alike(x: nat, y: nat) { x / 1024 == y / 1024 && x % 32 == y % 32 }

  predicate Dirty(x: nat) { x / 0x80 % 2 == 1 }

  /** Run e begins in the region of the table and covers entry k. */
  predicate RunAt(e: nat, sva: nat, k: nat) { Placed(e, sva, k) && VaOf(e) < sva + REGION }

  /** Every record of the region says of its pages what the live table says. */
  ghost predicate Agree(ptds: seq<nat>, pted: seq<nat>, sva: nat, live: Page) {
    && (forall e, k :: e in ptds && 0 <= k < NPTE && RunAt(e, sva, k) ==>
          Alike(RunPte(e, k - PX(0, VaOf(e))), live[k]))
    && (forall e, k :: e in pted && 0 <= k < NPTE && PageAt(e, sva, k) ==> Alike(PagePte(e), live[k]))
  }

  /** Some record is put at entry k. */
  ghost predicate Recorded(ptds: seq<nat>, pted: seq<nat>, sva: nat, k: nat) {
    SomeRun(ptds, sva, |ptds|, k) || SomePage(pted, sva, |pted|, k)
  }

  /** The page just above the region is in no run. */
  ghost predicate Fits(ptds: seq<nat>, sva: nat) { forall e :: e in ptds && Used(e) ==> !Spans(e, sva + REGION) }

  /** A run reaches the page above the region by crossing the boundary, or by starting there. */
  lemma RunFits(e: nat, sva: nat)
    requires sva % REGION == 0
    ensures Spans(e, sva + REGION) <==>
            (sva <= VaOf(e) < sva + REGION && PX(0, VaOf(e)) + LowBits(e) > NPTE)
            || (VaOf(e) == sva + REGION && LowBits(e) > 0)
    ensures VaOf(e) == sva + REGION ==> PX(0, VaOf(e)) == 0
  {
    var v, n := VaOf(e), LowBits(e);
    VaAligned(e);
    assert n < 512;
    hide VaOf, LowBits;
    Parts(v);
    var x := PX(0, v);
    hide PX;
    assert sva == sva / REGION * REGION;
    if sva <= v < sva + REGION {
      SameRegion(v / REGION, x, sva / REGION, x);
    } else if v == sva + REGION {
      SameRegion(v / REGION, x, sva / REGION + 1, 0);
    }
  }

  /** Fitting is what keeps the rebuild inside the table and clear of the next region's pages. */
  lemma FitsExact(ptds: seq<nat>, sva: nat)
    requires sva % REGION == 0
    ensures Fits(ptds, sva) <==>
            && Inside(ptds, sva, |ptds|)
            && forall e :: e in ptds && Used(e) && VaOf(e) == sva + REGION ==> LowBits(e) == 0
  {
    forall e | e in ptds
      ensures Spans(e, sva + REGION) <==>
              (sva <= VaOf(e) < sva + REGION && PX(0, VaOf(e)) + LowBits(e) > NPTE)
              || (VaOf(e) == sva + REGION && LowBits(e) > 0)
      ensures VaOf(e) == sva + REGION ==> PX(0, VaOf(e)) == 0 && LowBits(e) <= NPTE
    {
      RunFits(e, sva);
    }
    hide Used, VaOf, LowBits, PX, Spans;
    forall m | 0 <= m < |ptds|
      ensures ptds[m] in ptds
    {
    }
  }

  /** A run that fits is put just where the pages lie that it covers. */
  lemma RunAtIs(e: nat, sva: nat, k: nat)
    requires sva % REGION == 0 && k < NPTE
    ensures RunAt(e, sva, k) <==> Used(e) && sva <= VaOf(e) && Spans(e, sva + k * PGSIZE)
    ensures RunAt(e, sva, k) ==> VaOf(e) == sva + PX(0, VaOf(e)) * PGSIZE
  {
    var v, n := VaOf(e), LowBits(e);
    VaAligned(e);
    hide VaOf, LowBits, Used;
    Parts(v);
    var x := PX(0, v);
    hide PX;
    assert sva == sva / REGION * REGION;
    if sva <= v < sva + REGION {
      SameRegion(v / REGION, x, sva / REGION, x);
    }
  }

  lemma FitsPlaced(ptds: seq<nat>, sva: nat, e: nat, k: nat)
    requires sva % REGION == 0 && Fits(ptds, sva) && e in ptds && k < NPTE
    ensures Placed(e, sva, k) <==> RunAt(e, sva, k)
  {
    FitsExact(ptds, sva);
    RunFits(e, sva);
    hide Used, VaOf, LowBits, PX, Spans, Fits;
  }

  lemma PteDirty(e: nat, j: nat)
    ensures Dirty(RunPte(e, j)) && Dirty(PagePte(e))
  {
    PpnHigh(e, j);
    var b := e / 0x200 % 2;
    assert UbOf(e) == 0x10 * b;
    FlagsDirty(LowBits(e));
    hide OrderOf, PpnOf, UbOf, LowBits, Sub64, DirtyValid, Dirty;
    var p := if OrderOf(e) == 1 then PpnOf(e) + j * 0x400 else Sub64(PpnOf(e), j * 0x400);
    DirtyBits(p / 0x200, 0x10 * b + 0x8F);
    DirtyBits(PpnOf(e) / 0x200, DirtyValid(LowBits(e)));
  }

  lemma DirtyBits(a: nat, x: nat)
    requires Dirty(x)
    ensures Dirty(a * 0x200 + x)
  {
    var m, r := x / 0x80, x % 0x80;
    assert a * 0x200 + x == (4 * a + m) * 0x80 + r;
    Quotient(4 * a + m, r, 0x80);
    assert (2 * (2 * a) + m) % 2 == m % 2;
  }

  lemma FlagsDirty(flags: nat)
    ensures Dirty(DirtyValid(flags))
  {
    var q, r := flags / 0x80, flags % 0x80;
    assert flags == q * 0x80 + r && flags % 2 == r % 2;
    var s := r + if r % 2 == 0 then 1 else 0;
    assert s < 0x80;
    Quotient(if q % 2 == 0 then q + 1 else q, s, 0x80);
  }

  /** What a shift left its zeros in. */
  lemma PpnHigh(e: nat, j: nat)
    ensures PpnOf(e) == PpnOf(e) / 0x200 * 0x200
    ensures Sub64(PpnOf(e), j * 0x400) == Sub64(PpnOf(e), j * 0x400) / 0x200 * 0x200
    ensures (PpnOf(e) + j * 0x400) / 0x200 * 0x200 == PpnOf(e) + j * 0x400
  {
    var a := e % LIMIT / 0x800;
    assert PpnOf(e) == a * 0x200;
    hide PpnOf, Sub64;
    SubHigh(a, j);
    Whole(a);
    Whole(a + 2 * j);
  }

  lemma Whole(q: nat)
    ensures q * 0x200 / 0x200 == q
  {
  }

  lemma SubHigh(a: nat, j: nat)
    ensures Sub64(a * 0x200, j * 0x400) == Sub64(a * 0x200, j * 0x400) / 0x200 * 0x200
  {
    var d := a * 0x200 - j * 0x400;
    var x := d % W;
    assert d == d / W * W + x;
    assert x == (a - 2 * j - d / W * 0x80_0000_0000_0000) * 0x200;
  }

  /**
   A rebuilt table whose runs fit and whose records agree with the live one: an entry exists
   exactly if it is recorded, and then it is the live entry with PTE_D set and, it may be,
   PTE_A and PTE_G lost.
   */
  lemma RebuiltAlike(ptds: seq<nat>, pted: seq<nat>, sva: nat, page: Page, live: Page)
    requires sva % REGION == 0 && Given(ptds, pted, sva, page) && Fits(ptds, sva) && Agree(ptds, pted, sva, live)
    ensures forall k :: 0 <= k < NPTE ==> (page[k] != 0 <==> Recorded(ptds, pted, sva, k))
    ensures forall k :: 0 <= k < NPTE && page[k] != 0 ==> Alike(page[k], live[k]) && Dirty(page[k])
  {
    hide Used, VaOf, LowBits, PX, Spans, Fits, Placed, PageAt, RunAt, RunPte, PagePte, Alike, Dirty;
    forall k | 0 <= k < NPTE && page[k] != 0
      ensures Alike(page[k], live[k]) && Dirty(page[k])
    {
      if m :| 0 <= m < |ptds| && Placed(ptds[m], sva, k) {
        FitsPlaced(ptds, sva, ptds[m], k);
        PlacedFrom(ptds[m], sva, k);
        PteDirty(ptds[m], k - PX(0, VaOf(ptds[m])));
      } else {
        var m :| 0 <= m < |pted| && PageAt(pted[m], sva, k);
        assert pted[m] in pted;
        PteDirty(pted[m], 0);
      }
    }
  }

  lemma PlacedFrom(e: nat, sva: nat, k: nat)
    requires Placed(e, sva, k)
    ensures PX(0, VaOf(e)) <= k
  {
  }

  /** The rebuilt table agrees with the records again, so that a second error in it can be handled too. */
  lemma AgreesAgain(ptds: seq<nat>, pted: seq<nat>, sva: nat, page: Page)
    requires Given(ptds, pted, sva, page)
    ensures Agree(ptds, pted, sva, page)
  {
    hide Used, VaOf, LowBits, PX, PageAt, RunPte, PagePte;
    forall e, k | e in ptds && 0 <= k < NPTE && RunAt(e, sva, k)
      ensures Alike(RunPte(e, k - PX(0, VaOf(e))), page[k])
    {
      var m :| 0 <= m < |ptds| && ptds[m] == e;
      assert Placed(ptds[m], sva, k);
    }
  }

  // ----- from uvmalloc to a rebuilt table

  /** One successful call of uvmalloc: it mapped mems from oldsz on. */
  datatype Call = Call(oldsz: nat, mems: seq<nat>) {
    function End(): nat { oldsz + |mems| * PGSIZE }
  }

  /** The calls of a process: their addresses and their pages are apart. */
  ghost predicate Calls(calls: seq<Call>) {
    && (forall c :: 0 <= c < |calls| ==> Mappable(calls[c].oldsz, calls[c].mems) && ShortRuns(calls[c].mems))
    && (forall c, d :: 0 <= c < d < |calls| ==> calls[c].End() <= calls[d].oldsz || calls[d].End() <= calls[c].oldsz)
    && (forall c, d, i, j :: 0 <= c < d < |calls| && 0 <= i < |calls[c].mems| && 0 <= j < |calls[d].mems| ==>
          calls[c].mems[i] != calls[d].mems[j])
  }

  /** Page m of call c lies at va. */
  predicate PageIn(calls: seq<Call>, c: int, m: int, va: int) {
    0 <= c < |calls| && 0 <= m < |calls[c].mems| && va == calls[c].oldsz + m * PGSIZE
  }

  /** The leaf at va after the calls. */
  function LiveEntry(calls: seq<Call>, va: nat): nat {
    if calls == [] then 0
    else
      var c := calls[|calls| - 1];
      if c.oldsz <= va < c.End() then Mapping(c.mems[(va - c.oldsz) / PGSIZE], RWXU)
      else LiveEntry(calls[..|calls| - 1], va)
  }

  /** The L0 table for sva after the calls. */
  function LiveTable(calls: seq<Call>, sva: nat): Page {
    seq(NPTE, k requires 0 <= k < NPTE => LiveEntry(calls, sva + k * PGSIZE))
  }

  lemma {:induction false} LiveAt(calls: seq<Call>, c: nat, m: nat, va: nat)
    requires Calls(calls) && PageIn(calls, c, m, va)
    ensures LiveEntry(calls, va) == Mapping(calls[c].mems[m], RWXU)
  {
    var n := |calls| - 1;
    assert calls[c].oldsz <= va < calls[c].End();
    if c == n {
      assert (va - calls[c].oldsz) / PGSIZE == m;
    } else {
      assert PageIn(calls[..n], c, m, va);
      hide PageIn;
      LiveAt(calls[..n], c, m, va);
    }
  }

  lemma {:induction false} LiveOnlyAt(calls: seq<Call>, va: nat)
    requires Calls(calls) && va % PGSIZE == 0 && LiveEntry(calls, va) != 0
    ensures exists c, m :: PageIn(calls, c, m, va)
  {
    if calls == [] {
    } else {
      var n := |calls| - 1;
      var c := calls[n];
      if c.oldsz <= va < c.End() {
        PageMultiple(c.oldsz, va);
        assert PageIn(calls, n, (va - c.oldsz) / PGSIZE, va);
      } else {
        LiveOnlyAt(calls[..n], va);
        var d, m :| PageIn(calls[..n], d, m, va);
        assert PageIn(calls, d, m, va);
      }
    }
  }

  lemma PageMultiple(a: nat, b: nat)
    requires a % PGSIZE == 0 && b % PGSIZE == 0 && a <= b
    ensures a + (b - a) / PGSIZE * PGSIZE == b
  {
  }

  /** No address has two pages. */
  lemma OnePage(calls: seq<Call>, c: nat, m: nat, d: nat, i: nat, va: nat)
    requires Calls(calls) && PageIn(calls, c, m, va) && PageIn(calls, d, i, va)
    ensures c == d && m == i
  {
    assert calls[c].oldsz <= va < calls[c].End();
    assert calls[d].oldsz <= va < calls[d].End();
  }

  lemma NotJunk(va: nat, pa: nat, low: nat)
    requires Small(va) && Ram(pa) && low < 0x800
    ensures Used(PackPpn(PteOf(pa)) + PackVa(va) + low)
  {
    PackedVa(va);
    PackedPpn(pa);
    HighField(va / PGSIZE, pa + low);
    assert JUNK % LIMIT == 0x5_0505_0505;
  }

  lemma RunPteIs(e: nat, x: nat, order: nat, t: nat)
    requires Ram(x) && order <= 1 && t < 512 && Ram(RunPage(x, order, t))
    requires PpnOf(e) == PteOf(x) && OrderOf(e) == order && UbOf(e) == 0x10
    ensures RunPte(e, t) == Mapping(RunPage(x, order, t), RWXU) + PTE_D
  {
    var m := x / PGSIZE;
    assert x == m * PGSIZE;
    assert RunPage(x, order, t) / PGSIZE == if order == 1 then m + t else m - t;
  }

  /** What a run record says. */
  lemma RunEntry(e: nat, oldsz: nat, mems: seq<nat>, i: nat, n: nat, order: nat)
    requires Mappable(oldsz, mems) && RunRecord(e, oldsz, mems, i, n, order)
    ensures i + n <= |mems| && VaOf(e) == oldsz + i * PGSIZE && LowBits(e) == n && Used(e)
    ensures forall t :: 0 <= t < n ==> RunPte(e, t) == Mapping(mems[i + t], RWXU) + PTE_D
  {
    hide PackPpn, PackVa, PteOf, VaOf, PpnOf, OrderOf, UbOf, LowBits, Used, RunPte, Mapping;
    PtdsRoundTrip(oldsz + i * PGSIZE, mems[i], order, n);
    NotJunk(oldsz + i * PGSIZE, mems[i], order * 0x400 + 0x200 + n);
    hide Ptds;
    forall t | 0 <= t < n
      ensures RunPte(e, t) == Mapping(mems[i + t], RWXU) + PTE_D
    {
      assert mems[i + t] == RunPage(mems[i], order, t);
      RunPteIs(e, mems[i], order, t);
    }
  }

  /** What a single-page record says. */
  lemma OneEntry(e: nat, oldsz: nat, mems: seq<nat>, i: nat)
    requires Mappable(oldsz, mems) && i < |mems| && e == Pted(oldsz + i * PGSIZE, mems[i], RWXU)
    ensures VaOf(e) == oldsz + i * PGSIZE && Used(e) && PagePte(e) == Mapping(mems[i], RWXU) + PTE_D
  {
    PtedRoundTrip(oldsz + i * PGSIZE, mems[i], RWXU);
    NotJunk(oldsz + i * PGSIZE, mems[i], RWXU);
  }

  // ----- the list that holds the records of several calls

  ghost predicate FromCall(calls: seq<Call>, ptds: seq<nat>, pted: seq<nat>) {
    && (forall e :: e in ptds ==> RunOfCall(calls, e))
    && (forall e :: e in pted ==> PageOfCall(calls, e))
  }

  ghost predicate RunOfCall(calls: seq<Call>, e: nat) {
    exists c, i: nat, n: nat, order: nat ::
      0 <= c < |calls| && RunRecord(e, calls[c].oldsz, calls[c].mems, i, n, order)
  }

  ghost predicate PageOfCall(calls: seq<Call>, e: nat) {
    exists c, i: nat {:trigger Pted(calls[c].oldsz + i * PGSIZE, calls[c].mems[i], RWXU)} ::
      0 <= c < |calls| && i < |calls[c].mems| && e == Pted(calls[c].oldsz + i * PGSIZE, calls[c].mems[i], RWXU)
  }

  /** The lists hold just what uvmalloc's recorder makes of the calls. */
  ghost predicate AllTold(calls: seq<Call>, ptds: seq<nat>, pted: seq<nat>) {
    && FromCall(calls, ptds, pted)
    && forall c :: 0 <= c < |calls| ==> Told(calls[c].oldsz, calls[c].mems, ptds, pted)
  }

  lemma RunSomewhere(calls: seq<Call>, e: nat, va: nat) returns (c: nat, m: nat)
    requires Calls(calls) && RunOfCall(calls, e) && va % PGSIZE == 0 && Spans(e, va)
    ensures PageIn(calls, c, m, va) && Used(e)
  {
    hide Used, VaOf, LowBits, IsRun, Unbroken, Ptds;
    var d, i: nat, n: nat, order: nat :|
      0 <= d < |calls| && RunRecord(e, calls[d].oldsz, calls[d].mems, i, n, order);
    RunEntry(e, calls[d].oldsz, calls[d].mems, i, n, order);
    PageMultiple(calls[d].oldsz, va);
    return d, (va - calls[d].oldsz) / PGSIZE;
  }

  lemma PageSomewhere(calls: seq<Call>, e: nat) returns (c: nat, m: nat)
    requires Calls(calls) && PageOfCall(calls, e)
    ensures PageIn(calls, c, m, VaOf(e)) && Used(e) && PagePte(e) == Mapping(calls[c].mems[m], RWXU) + PTE_D
  {
    hide Used, VaOf, PagePte, Mapping;
    var d, i: nat :|
      0 <= d < |calls| && i < |calls[d].mems| && e == Pted(calls[d].oldsz + i * PGSIZE, calls[d].mems[i], RWXU);
    hide Pted;
    OneEntry(e, calls[d].oldsz, calls[d].mems, i);
    return d, i;
  }

  /** The run that covers page m of call c. */
  lemma RunOver(calls: seq<Call>, e: nat, va: nat, c: nat, m: nat) returns (i: nat, n: nat)
    requires Calls(calls) && RunOfCall(calls, e) && PageIn(calls, c, m, va) && Spans(e, va)
    ensures i <= m < i + n <= |calls[c].mems| && Unbroken(calls[c].mems, i, n)
    ensures VaOf(e) == calls[c].oldsz + i * PGSIZE && Used(e)
    ensures RunPte(e, m - i) == Mapping(calls[c].mems[m], RWXU) + PTE_D
  {
    hide Used, VaOf, LowBits, IsRun, Unbroken, Ptds, RunPte, Mapping;
    var order: nat, d;
    d, i, n, order :| 0 <= d < |calls| && RunRecord(e, calls[d].oldsz, calls[d].mems, i, n, order);
    RunEntry(e, calls[d].oldsz, calls[d].mems, i, n, order);
    assert calls[d].oldsz <= va < calls[d].End();
    assert calls[c].oldsz <= va < calls[c].End();
    assert d == c;
    assert calls[c].mems[i + (m - i)] == calls[c].mems[m];
  }

  // ----- which entries the rebuilt table has

  /** Page m is in a run that begins below sva. */
  ghost predicate Begun(c: Call, sva: nat, m: nat)
    requires m < |c.mems|
  {
    exists b: nat :: 1 <= b <= m && c.oldsz + b * PGSIZE == sva && forall t :: b - 1 <= t <= m ==> !Breaks(c.mems, t)
  }

  /** The page just above the region is in no run. */
  ghost predicate Clear(calls: seq<Call>, sva: nat) {
    forall c, m :: PageIn(calls, c, m, sva + REGION) ==> !InRun(calls[c].mems, m)
  }

  /** Each page is in the rebuilt table, as mapped but dirty, unless the recorder skipped it or its run begins below. */
  ghost predicate AsMapped(calls: seq<Call>, sva: nat, page: Page) {
    && (forall c, m, k :: 0 <= k < NPTE && PageIn(calls, c, m, sva + k * PGSIZE) ==>
          page[k] == if Skipped(calls[c].mems, m) || Begun(calls[c], sva, m) then 0
                     else Mapping(calls[c].mems[m], RWXU) + PTE_D)
    && (forall k {:trigger page[k]} :: 0 <= k < NPTE && LiveEntry(calls, sva + k * PGSIZE) == 0 ==> page[k] == 0)
  }

  lemma RegionPage(sva: nat, k: nat)
    requires sva % REGION == 0
    ensures (sva + k * PGSIZE) % PGSIZE == 0
  {
    assert sva == sva / REGION * 512 * PGSIZE;
    assert sva + k * PGSIZE == (sva / REGION * 512 + k) * PGSIZE;
  }

  /** The page above the region is in a recorded run just if it is in a run. */
  lemma ClearFits(calls: seq<Call>, ptds: seq<nat>, pted: seq<nat>, sva: nat)
    requires Calls(calls) && AllTold(calls, ptds, pted) && sva % REGION == 0
    ensures Clear(calls, sva) <==> Fits(ptds, sva)
  {
    hide Spans, Used, VaOf, InRun, RunOfCall, PageOfCall, Calls;
    var va := sva + REGION;
    RegionPage(sva, 512);
    forall e | e in ptds && Spans(e, va)
      ensures !Clear(calls, sva) && Used(e)
    {
      var c, m := RunSomewhere(calls, e, va);
      assert NamedRun(ptds, calls[c].oldsz, m);
    }
    forall c, m | PageIn(calls, c, m, va) && InRun(calls[c].mems, m)
      ensures exists e :: e in ptds && Spans(e, va)
    {
      assert NamedRun(ptds, calls[c].oldsz, m);
    }
  }

  /** At the address of a page, the records put at its entry are the ones that name it. */
  lemma RunsHere(calls: seq<Call>, ptds: seq<nat>, pted: seq<nat>, sva: nat, k: nat, e: nat)
    requires Calls(calls) && FromCall(calls, ptds, pted) && sva % REGION == 0 && Fits(ptds, sva)
    requires k < NPTE && e in ptds
    ensures Placed(e, sva, k) <==> sva <= VaOf(e) && Spans(e, sva + k * PGSIZE)
  {
    FitsPlaced(ptds, sva, e, k);
    RunAtIs(e, sva, k);
    RegionPage(sva, k);
    hide Calls, Placed, RunAt, Fits, Used, VaOf, RunOfCall;
    if Spans(e, sva + k * PGSIZE) {
      var c, m := RunSomewhere(calls, e, sva + k * PGSIZE);
    }
  }

  lemma PagesHere(calls: seq<Call>, ptds: seq<nat>, pted: seq<nat>, sva: nat, k: nat, e: nat)
    requires Calls(calls) && FromCall(calls, ptds, pted) && e in pted
    ensures PageAt(e, sva, k) <==> VaOf(e) == sva + k * PGSIZE
  {
    hide Calls, Used, VaOf, PageOfCall;
    var c, m := PageSomewhere(calls, e);
  }

  /** No two records are put at the same entry. */
  lemma RecordsOnce(calls: seq<Call>, ptds: seq<nat>, pted: seq<nat>, sva: nat)
    requires Calls(calls) && AllTold(calls, ptds, pted) && sva % REGION == 0 && Fits(ptds, sva)
    ensures Once(ptds, pted, sva)
  {
    hide Calls, Used, VaOf, Spans, Placed, PageAt, PageIn, NamedRun, NamedPage, Fits, RunOfCall, PageOfCall;
    forall k, i, j | 0 <= k < NPTE && 0 <= i < j < |ptds| && Placed(ptds[i], sva, k) && Placed(ptds[j], sva, k)
      ensures false
    {
      var va := sva + k * PGSIZE;
      RegionPage(sva, k);
      RunsHere(calls, ptds, pted, sva, k, ptds[i]);
      RunsHere(calls, ptds, pted, sva, k, ptds[j]);
      assert RunOfCall(calls, ptds[i]);
      var c, m := RunSomewhere(calls, ptds[i], va);
      OnceOf(calls, ptds, pted, c, m, va);
    }
    forall k, i, j | 0 <= k < NPTE && 0 <= i < j < |pted| && PageAt(pted[i], sva, k) && PageAt(pted[j], sva, k)
      ensures false
    {
      var va := sva + k * PGSIZE;
      PagesHere(calls, ptds, pted, sva, k, pted[i]);
      PagesHere(calls, ptds, pted, sva, k, pted[j]);
      assert PageOfCall(calls, pted[i]);
      var c, m := PageSomewhere(calls, pted[i]);
      OnceOf(calls, ptds, pted, c, m, va);
    }
    forall k, i, j | 0 <= k < NPTE && 0 <= i < |ptds| && 0 <= j < |pted| && Placed(ptds[i], sva, k) &&
        PageAt(pted[j], sva, k)
      ensures false
    {
      var va := sva + k * PGSIZE;
      RunsHere(calls, ptds, pted, sva, k, ptds[i]);
      PagesHere(calls, ptds, pted, sva, k, pted[j]);
      assert PageOfCall(calls, pted[j]);
      var c, m := PageSomewhere(calls, pted[j]);
      OnceOf(calls, ptds, pted, c, m, va);
    }
  }

  lemma OnceOf(calls: seq<Call>, ptds: seq<nat>, pted: seq<nat>, c: nat, m: nat, va: nat)
    requires AllTold(calls, ptds, pted) && PageIn(calls, c, m, va)
    ensures forall i, j :: 0 <= i < j < |ptds| ==> !Spans(ptds[i], va) || !Spans(ptds[j], va)
    ensures forall i, j :: 0 <= i < j < |pted| ==> VaOf(pted[i]) != va || VaOf(pted[j]) != va
    ensures forall i, j :: 0 <= i < |ptds| && 0 <= j < |pted| ==> !Spans(ptds[i], va) || VaOf(pted[j]) != va
  {
    hide VaOf, Spans, FromCall, NamedRun, NamedPage, InRun, Alone;
    assert NamedOnce(ptds, pted, calls[c].oldsz, m);
  }

  lemma EntryAlone(calls: seq<Call>, ptds: seq<nat>, pted: seq<nat>, sva: nat, page: Page, c: nat, m: nat, k: nat)
    requires Calls(calls) && AllTold(calls, ptds, pted) && sva % REGION == 0 && Given(ptds, pted, sva, page)
    requires k < NPTE && PageIn(calls, c, m, sva + k * PGSIZE) && Alone(calls[c].mems, m)
    ensures page[k] == Mapping(calls[c].mems[m], RWXU) + PTE_D && !Begun(calls[c], sva, m)
  {
    hide Calls, Used, VaOf, Spans, Placed, PageAt, NamedRun, RunOfCall, PageOfCall, PagePte, RunPte, Mapping, Breaks;
    assert NamedPage(pted, calls[c].oldsz, m);
    var e :| e in pted && VaOf(e) == sva + k * PGSIZE;
    PagesHere(calls, ptds, pted, sva, k, e);
    assert PageOfCall(calls, e);
    var d, i := PageSomewhere(calls, e);
    OnePage(calls, c, m, d, i, VaOf(e));
    var j :| 0 <= j < |pted| && pted[j] == e;
    assert PageAt(pted[j], sva, k);
    NotBegun(calls[c], sva, m);
  }

  lemma NotBegun(c: Call, sva: nat, m: nat)
    requires m < |c.mems| && !InRun(c.mems, m)
    ensures !Begun(c, sva, m)
  {
    hide Breaks;
  }

  lemma EntrySkipped(calls: seq<Call>, ptds: seq<nat>, pted: seq<nat>, sva: nat, page: Page, c: nat, m: nat, k: nat)
    requires Calls(calls) && AllTold(calls, ptds, pted) && sva % REGION == 0 && Given(ptds, pted, sva, page)
    requires Fits(ptds, sva) && k < NPTE && PageIn(calls, c, m, sva + k * PGSIZE) && Skipped(calls[c].mems, m)
    ensures page[k] == 0
  {
    hide Calls, Used, VaOf, Spans, Placed, PageAt, RunOfCall, PageOfCall, PagePte, RunPte, Breaks, Fits;
    assert !NamedRun(ptds, calls[c].oldsz, m) && !NamedPage(pted, calls[c].oldsz, m);
    forall j | 0 <= j < |ptds|
      ensures !Placed(ptds[j], sva, k)
    {
      RunsHere(calls, ptds, pted, sva, k, ptds[j]);
    }
    forall j | 0 <= j < |pted|
      ensures !PageAt(pted[j], sva, k)
    {
      PagesHere(calls, ptds, pted, sva, k, pted[j]);
    }
  }

  lemma EntryInRun(calls: seq<Call>, ptds: seq<nat>, pted: seq<nat>, sva: nat, page: Page, c: nat, m: nat, k: nat)
    requires Calls(calls) && AllTold(calls, ptds, pted) && sva % REGION == 0 && Given(ptds, pted, sva, page)
    requires Fits(ptds, sva) && k < NPTE && PageIn(calls, c, m, sva + k * PGSIZE) && InRun(calls[c].mems, m)
    ensures page[k] == if Begun(calls[c], sva, m) then 0 else Mapping(calls[c].mems[m], RWXU) + PTE_D
  {
    hide Calls, Used, VaOf, Spans, Placed, PageAt, RunOfCall, PageOfCall, PagePte, RunPte, Mapping, Breaks, Fits;
    hide InRun, Begun, Unbroken;
    var va := sva + k * PGSIZE;
    assert NamedRun(ptds, calls[c].oldsz, m);
    var e :| e in ptds && Spans(e, va);
    assert RunOfCall(calls, e);
    var i, n := RunOver(calls, e, va, c, m);
    var j :| 0 <= j < |ptds| && ptds[j] == e;
    RunsHere(calls, ptds, pted, sva, k, e);
    Start(calls, c, sva, i, n, m);
    if sva <= VaOf(e) {
      FitsPlaced(ptds, sva, e, k);
      AtItsPlace(calls, sva, e, c, i, m, k);
    } else {
      EntryBelow(calls, ptds, pted, sva, page, c, m, k, j);
    }
  }

  lemma AtItsPlace(calls: seq<Call>, sva: nat, e: nat, c: nat, i: nat, m: nat, k: nat)
    requires sva % REGION == 0 && k < NPTE && PageIn(calls, c, m, sva + k * PGSIZE) && RunAt(e, sva, k)
    requires VaOf(e) == calls[c].oldsz + i * PGSIZE
    ensures PX(0, VaOf(e)) <= k && k - PX(0, VaOf(e)) == m - i
  {
    PlacedFrom(e, sva, k);
    RunAtIs(e, sva, k);
    hide VaOf, PX, RunAt;
  }

  lemma EntryBelow(calls: seq<Call>, ptds: seq<nat>, pted: seq<nat>, sva: nat, page: Page, c: nat, m: nat, k: nat,
                   j: nat)
    requires Calls(calls) && AllTold(calls, ptds, pted) && sva % REGION == 0 && Given(ptds, pted, sva, page)
    requires Fits(ptds, sva) && k < NPTE && PageIn(calls, c, m, sva + k * PGSIZE)
    requires j < |ptds| && Spans(ptds[j], sva + k * PGSIZE) && VaOf(ptds[j]) < sva
    ensures page[k] == 0
  {
    hide Calls, Used, VaOf, Spans, Placed, PageAt, RunOfCall, PageOfCall, PagePte, RunPte, Fits;
    OnceOf(calls, ptds, pted, c, m, sva + k * PGSIZE);
    forall l | 0 <= l < |ptds|
      ensures !Placed(ptds[l], sva, k)
    {
      RunsHere(calls, ptds, pted, sva, k, ptds[l]);
    }
    forall l | 0 <= l < |pted|
      ensures !PageAt(pted[l], sva, k)
    {
      PagesHere(calls, ptds, pted, sva, k, pted[l]);
    }
  }

  /** A run begins below sva just if its first page lies there. */
  lemma Start(calls: seq<Call>, c: nat, sva: nat, i: nat, n: nat, m: nat)
    requires Calls(calls) && c < |calls| && i <= m < i + n <= |calls[c].mems| && Unbroken(calls[c].mems, i, n)
    requires sva % REGION == 0 && sva <= calls[c].oldsz + m * PGSIZE
    ensures Begun(calls[c], sva, m) <==> calls[c].oldsz + i * PGSIZE < sva
  {
    hide Breaks;
    var oldsz := calls[c].oldsz;
    RegionPage(sva, 0);
    if oldsz + i * PGSIZE < sva {
      PageMultiple(oldsz, sva);
      var b := (sva - oldsz) / PGSIZE;
      assert oldsz + b * PGSIZE == sva && i < b <= m;
    }
  }

  lemma EntryNone(calls: seq<Call>, ptds: seq<nat>, pted: seq<nat>, sva: nat, page: Page, k: nat)
    requires Calls(calls) && AllTold(calls, ptds, pted) && sva % REGION == 0 && Given(ptds, pted, sva, page)
    requires Fits(ptds, sva) && k < NPTE && LiveEntry(calls, sva + k * PGSIZE) == 0
    ensures page[k] == 0
  {
    hide Calls, Used, VaOf, Spans, Placed, PageAt, RunOfCall, PageOfCall, PagePte, RunPte, Fits, LiveEntry;
    var va := sva + k * PGSIZE;
    RegionPage(sva, k);
    forall c, m | PageIn(calls, c, m, va)
      ensures false
    {
      LiveAt(calls, c, m, va);
      MappingNonZero(calls[c].mems[m]);
    }
    forall l | 0 <= l < |ptds|
      ensures !Placed(ptds[l], sva, k)
    {
      RunsHere(calls, ptds, pted, sva, k, ptds[l]);
      assert RunOfCall(calls, ptds[l]);
      if Spans(ptds[l], va) {
        var c, m := RunSomewhere(calls, ptds[l], va);
      }
    }
    forall l | 0 <= l < |pted|
      ensures !PageAt(pted[l], sva, k)
    {
      PagesHere(calls, ptds, pted, sva, k, pted[l]);
      assert PageOfCall(calls, pted[l]);
      if VaOf(pted[l]) == va {
        var c, m := PageSomewhere(calls, pted[l]);
      }
    }
  }

  lemma MappingNonZero(pa: nat)
    ensures Mapping(pa, RWXU) != 0
  {
  }

  /** The table rebuilt from the records of the calls. */
  lemma RebuiltAsMapped(calls: seq<Call>, ptds: seq<nat>, pted: seq<nat>, sva: nat, page: Page)
    requires Calls(calls) && AllTold(calls, ptds, pted) && sva % REGION == 0 && Clear(calls, sva)
    requires Given(ptds, pted, sva, page)
    ensures AsMapped(calls, sva, page)
  {
    ClearFits(calls, ptds, pted, sva);
    hide Calls, AllTold, Clear, Given, Fits, LiveEntry, Begun, Skipped, InRun, Mapping;
    forall c, m, k | 0 <= k < NPTE && PageIn(calls, c, m, sva + k * PGSIZE)
      ensures page[k] == if Skipped(calls[c].mems, m) || Begun(calls[c], sva, m) then 0
                         else Mapping(calls[c].mems[m], RWXU) + PTE_D
    {
      if Alone(calls[c].mems, m) {
        EntryAlone(calls, ptds, pted, sva, page, c, m, k);
      } else if InRun(calls[c].mems, m) {
        RunNotSkipped(calls[c].mems, m);
        EntryInRun(calls, ptds, pted, sva, page, c, m, k);
      } else {
        EntrySkipped(calls, ptds, pted, sva, page, c, m, k);
      }
    }
    forall k | 0 <= k < NPTE && LiveEntry(calls, sva + k * PGSIZE) == 0
      ensures page[k] == 0
    {
      EntryNone(calls, ptds, pted, sva, page, k);
    }
  }

  lemma RunNotSkipped(mems: seq<nat>, m: nat)
    requires m < |mems| && InRun(mems, m)
    ensures !Skipped(mems, m)
  {
    hide Breaks;
  }

  /** The records agree with the live table of any region, with whatever A and D bits the MMU has set in it. */
  lemma RecordsAgree(calls: seq<Call>, ptds: seq<nat>, pted: seq<nat>, sva: nat, live: Page)
    requires Calls(calls) && AllTold(calls, ptds, pted) && sva % REGION == 0
    requires forall k :: 0 <= k < NPTE ==> Alike(live[k], LiveTable(calls, sva)[k])
    ensures Agree(ptds, pted, sva, live)
  {
    hide Calls, Used, VaOf, Spans, Placed, PageAt, RunOfCall, PageOfCall, PagePte, RunPte, PX, LiveEntry, Mapping;
    hide RunAt, Unbroken, Told;
    forall e, k | e in ptds && 0 <= k < NPTE && RunAt(e, sva, k)
      ensures PX(0, VaOf(e)) <= k && Alike(RunPte(e, k - PX(0, VaOf(e))), live[k])
    {
      RunAtIs(e, sva, k);
      RegionPage(sva, k);
      assert RunOfCall(calls, e);
      var c, m := RunSomewhere(calls, e, sva + k * PGSIZE);
      var i, n := RunOver(calls, e, sva + k * PGSIZE, c, m);
      AtItsPlace(calls, sva, e, c, i, m, k);
      LiveAt(calls, c, m, sva + k * PGSIZE);
      DirtyAlike(calls[c].mems[m]);
    }
    forall e, k | e in pted && 0 <= k < NPTE && PageAt(e, sva, k)
      ensures Alike(PagePte(e), live[k])
    {
      PagesHere(calls, ptds, pted, sva, k, e);
      assert PageOfCall(calls, e);
      var c, m := PageSomewhere(calls, e);
      LiveAt(calls, c, m, sva + k * PGSIZE);
      DirtyAlike(calls[c].mems[m]);
    }
  }

  lemma DirtyAlike(pa: nat)
    ensures Alike(Mapping(pa, RWXU) + PTE_D, Mapping(pa, RWXU))
  {
    var q := pa / PGSIZE;
    assert Mapping(pa, RWXU) == q * 1024 + 0x1F;
    hide Mapping;
    LowAndHigh(q, 0x1F);
    LowAndHigh(q, 0x9F);
  }

  lemma LowAndHigh(q: nat, x: nat)
    requires x < 1024
    ensures (q * 1024 + x) / 1024 == q && (q * 1024 + x) % 32 == x % 32
  {
    Quotient(q, x, 1024);
    var m, r := x / 32, x % 32;
    assert q * 1024 + x == (32 * q + m) * 32 + r;
    Quotient(32 * q + m, r, 32);
  }

  /** No entry of the rebuilt table names a page that is not mapped there. */
  ghost predicate Safe(page: Page, live: Page) {
    forall k {:trigger page[k]} :: 0 <= k < NPTE && page[k] != 0 ==> Alike(page[k], live[k])
  }

  lemma AsMappedSafe(calls: seq<Call>, sva: nat, page: Page)
    requires Calls(calls) && AsMapped(calls, sva, page) && sva % REGION == 0
    ensures Safe(page, LiveTable(calls, sva))
  {
    hide Calls, LiveEntry, Begun, Skipped, Mapping, Alike;
    forall k | 0 <= k < NPTE && page[k] != 0
      ensures Alike(page[k], LiveTable(calls, sva)[k])
    {
      RegionPage(sva, k);
      LiveOnlyAt(calls, sva + k * PGSIZE);
      var c, m :| PageIn(calls, c, m, sva + k * PGSIZE);
      LiveAt(calls, c, m, sva + k * PGSIZE);
      DirtyAlike(calls[c].mems[m]);
    }
  }

  lemma MappingsApart(x: nat, y: nat)
    requires Ram(x) && Ram(y) && x != y
    ensures !Alike(Mapping(x, RWXU) + PTE_D, Mapping(y, RWXU)) && !Alike(Mapping(x, RWXU) + PTE_D, 0)
  {
  }

  /** A run that starts at the next region is put over this one: address sva gets the page of the next region. */
  lemma NotClearWrong(calls: seq<Call>, ptds: seq<nat>, pted: seq<nat>, sva: nat, page: Page)
    requires Calls(calls) && AllTold(calls, ptds, pted) && sva % REGION == 0 && !Clear(calls, sva)
    requires Given(ptds, pted, sva, page) && Inside(ptds, sva, |ptds|)
    ensures page[0] != 0 && !Alike(page[0], LiveTable(calls, sva)[0])
  {
    ClearFits(calls, ptds, pted, sva);
    FitsExact(ptds, sva);
    hide Calls, AllTold, Fits, Clear, LiveTable, Spans, Alike, Given, Inside, Used, VaOf, LowBits;
    var e :| e in ptds && Used(e) && VaOf(e) == sva + REGION && LowBits(e) != 0;
    StrayWrong(calls, ptds, pted, sva, page, e);
  }

  lemma StrayWrong(calls: seq<Call>, ptds: seq<nat>, pted: seq<nat>, sva: nat, page: Page, e: nat)
    requires Calls(calls) && AllTold(calls, ptds, pted) && sva % REGION == 0 && Given(ptds, pted, sva, page)
    requires e in ptds && Used(e) && VaOf(e) == sva + REGION && LowBits(e) != 0
    ensures page[0] != 0 && !Alike(page[0], LiveTable(calls, sva)[0])
  {
    hide Calls, LiveTable, Spans, Alike, Given, Used, VaOf, LowBits, RunOfCall, PageOfCall, Told, RunPte, Mapping;
    StrayRun(ptds, pted, sva, page, e);
    assert RunOfCall(calls, e);
    RegionPage(sva, 512);
    var c, m := RunSomewhere(calls, e, sva + REGION);
    var i, n := RunOver(calls, e, sva + REGION, c, m);
    OtherPage(calls, sva, c, m);
  }

  lemma StrayRun(ptds: seq<nat>, pted: seq<nat>, sva: nat, page: Page, e: nat)
    requires sva % REGION == 0 && Given(ptds, pted, sva, page)
    requires e in ptds && Used(e) && VaOf(e) == sva + REGION && LowBits(e) != 0
    ensures page[0] == RunPte(e, 0) && Spans(e, sva + REGION)
  {
    RunFits(e, sva);
    hide RunPte, PagePte, PageAt, Used, VaOf, LowBits, Spans, PX;
    var j :| 0 <= j < |ptds| && ptds[j] == e;
    assert Placed(ptds[j], sva, 0);
  }

  lemma OtherPage(calls: seq<Call>, sva: nat, c: nat, m: nat)
    requires Calls(calls) && sva % REGION == 0 && PageIn(calls, c, m, sva + REGION)
    ensures Mapping(calls[c].mems[m], RWXU) + PTE_D != 0
    ensures !Alike(Mapping(calls[c].mems[m], RWXU) + PTE_D, LiveTable(calls, sva)[0])
  {
    hide LiveEntry, Mapping, Alike;
    RegionPage(sva, 0);
    assert LiveTable(calls, sva)[0] == LiveEntry(calls, sva + 0 * PGSIZE);
    if LiveEntry(calls, sva) == 0 {
      MappingsApart(calls[c].mems[m], if calls[c].mems[m] == KERNBASE then KERNBASE + PGSIZE else KERNBASE);
    } else {
      LiveOnlyAt(calls, sva);
      var d, i :| PageIn(calls, d, i, sva);
      LiveAt(calls, d, i, sva);
      MappingsApart(calls[c].mems[m], calls[d].mems[i]);
    }
  }

  // ----- several calls

  lemma Concat(ptds: seq<nat>, pted: seq<nat>, p: seq<nat>, q: seq<nat>, oldsz: nat, k: nat)
    ensures NamedRun(ptds + p, oldsz, k) <==> NamedRun(ptds, oldsz, k) || NamedRun(p, oldsz, k)
    ensures NamedPage(pted + q, oldsz, k) <==> NamedPage(pted, oldsz, k) || NamedPage(q, oldsz, k)
    ensures NamedOnce(ptds, pted, oldsz, k) && NamedOnce(p, q, oldsz, k)
            && ((!NamedRun(ptds, oldsz, k) && !NamedPage(pted, oldsz, k))
                || (!NamedRun(p, oldsz, k) && !NamedPage(q, oldsz, k))) ==>
              NamedOnce(ptds + p, pted + q, oldsz, k)
  {
    hide Spans, VaOf;
    var va := oldsz + k * PGSIZE;
    if e :| e in ptds + p && Spans(e, va) {
      assert e in ptds || e in p;
    }
    if e :| e in ptds && Spans(e, va) {
      assert e in ptds + p;
    }
    if e :| e in p && Spans(e, va) {
      assert e in ptds + p;
    }
    if e :| e in pted && VaOf(e) == va {
      assert e in pted + q;
    }
    if e :| e in q && VaOf(e) == va {
      assert e in pted + q;
    }
    assert forall i :: 0 <= i < |ptds| ==> ptds[i] in ptds;
    assert forall i :: 0 <= i < |p| ==> p[i] in p;
    assert forall i :: 0 <= i < |pted| ==> pted[i] in pted;
    assert forall i :: 0 <= i < |q| ==> q[i] in q;
  }

  /** Records that belong to other calls do not name page m of call c. */
  lemma NotNamed(calls: seq<Call>, ptds: seq<nat>, pted: seq<nat>, oldsz: nat, m: nat)
    requires Calls(calls) && FromCall(calls, ptds, pted) && oldsz % PGSIZE == 0
    requires forall c :: 0 <= c < |calls| ==>
               oldsz + m * PGSIZE < calls[c].oldsz || calls[c].End() <= oldsz + m * PGSIZE
    ensures !NamedRun(ptds, oldsz, m) && !NamedPage(pted, oldsz, m) && NamedOnce(ptds, pted, oldsz, m)
  {
    hide Calls, Spans, VaOf, RunOfCall, PageOfCall;
    var va := oldsz + m * PGSIZE;
    assert va % PGSIZE == 0;
    forall e | e in ptds && Spans(e, va)
      ensures false
    {
      assert RunOfCall(calls, e);
      var c, i := RunSomewhere(calls, e, va);
    }
    forall e | e in pted && VaOf(e) == va
      ensures false
    {
      assert PageOfCall(calls, e);
      var c, i := PageSomewhere(calls, e);
    }
    assert forall j :: 0 <= j < |ptds| ==> ptds[j] in ptds;
    assert forall j :: 0 <= j < |pted| ==> pted[j] in pted;
  }

  lemma CallsSplit(calls: seq<Call>, c: Call)
    requires Calls(calls + [c])
    ensures Calls(calls) && Calls([c])
    ensures forall d, k {:trigger calls[d], k * PGSIZE} :: 0 <= d < |calls| && 0 <= k < |calls[d].mems| ==>
              var va := calls[d].oldsz + k * PGSIZE; va < c.oldsz || c.End() <= va
    ensures forall d, k {:trigger calls[d], k * PGSIZE} :: 0 <= d < |calls| && 0 <= k < |c.mems| ==>
              var va := c.oldsz + k * PGSIZE; va < calls[d].oldsz || calls[d].End() <= va
  {
    var all := calls + [c];
    assert forall d :: 0 <= d < |calls| ==> all[d] == calls[d];
    assert all[|calls|] == c;
  }

  lemma MoreFrom(calls: seq<Call>, ptds: seq<nat>, pted: seq<nat>, c: Call, p: seq<nat>, q: seq<nat>)
    requires FromCall(calls, ptds, pted) && Sound(p, q, c.oldsz, c.mems)
    ensures FromCall(calls + [c], ptds + p, pted + q) && FromCall([c], p, q)
  {
    hide RunRecord, Pted;
    var all := calls + [c];
    assert all[|calls|] == c && [c][0] == c;
    forall e | e in ptds
      ensures RunOfCall(all, e)
    {
      var d, i: nat, n: nat, order: nat :|
        0 <= d < |calls| && RunRecord(e, calls[d].oldsz, calls[d].mems, i, n, order);
      assert all[d] == calls[d];
    }
    forall e | e in p
      ensures RunOfCall(all, e) && RunOfCall([c], e)
    {
      var i: nat, n: nat, order: nat :| RunRecord(e, c.oldsz, c.mems, i, n, order);
      assert RunRecord(e, all[|calls|].oldsz, all[|calls|].mems, i, n, order);
      assert RunRecord(e, [c][0].oldsz, [c][0].mems, i, n, order);
    }
    forall e | e in pted
      ensures PageOfCall(all, e)
    {
      var d, i: nat :|
        0 <= d < |calls| && i < |calls[d].mems| && e == Pted(calls[d].oldsz + i * PGSIZE, calls[d].mems[i], RWXU);
      assert e == Pted(all[d].oldsz + i * PGSIZE, all[d].mems[i], RWXU);
    }
    forall e | e in q
      ensures PageOfCall(all, e) && PageOfCall([c], e)
    {
      var i: nat :| i < |c.mems| && e == Pted(c.oldsz + i * PGSIZE, c.mems[i], RWXU);
      assert e == Pted(all[|calls|].oldsz + i * PGSIZE, all[|calls|].mems[i], RWXU);
      assert e == Pted([c][0].oldsz + i * PGSIZE, [c][0].mems[i], RWXU);
    }
  }

  /** The records of one more call join the lists. */
  lemma MoreTold(calls: seq<Call>, ptds: seq<nat>, pted: seq<nat>, c: Call, p: seq<nat>, q: seq<nat>)
    requires Calls(calls + [c]) && AllTold(calls, ptds, pted)
    requires Sound(p, q, c.oldsz, c.mems) && Told(c.oldsz, c.mems, p, q)
    ensures AllTold(calls + [c], ptds + p, pted + q)
  {
    var all := calls + [c];
    CallsSplit(calls, c);
    MoreFrom(calls, ptds, pted, c, p, q);
    hide Calls, FromCall, Sound, NamedRun, NamedPage, NamedOnce, InRun, Alone;
    forall d, k | 0 <= d < |all| && 0 <= k < |all[d].mems|
      ensures NamedRun(ptds + p, all[d].oldsz, k) <==> InRun(all[d].mems, k)
      ensures NamedPage(pted + q, all[d].oldsz, k) <==> Alone(all[d].mems, k)
      ensures NamedOnce(ptds + p, pted + q, all[d].oldsz, k)
    {
      MoreToldAt(calls, ptds, pted, c, p, q, d, k);
    }
  }

  lemma MoreToldAt(calls: seq<Call>, ptds: seq<nat>, pted: seq<nat>, c: Call, p: seq<nat>, q: seq<nat>, d: nat, k: nat)
    requires Calls(calls + [c]) && AllTold(calls, ptds, pted) && FromCall([c], p, q)
    requires Told(c.oldsz, c.mems, p, q) && d <= |calls| && k < |(calls + [c])[d].mems|
    ensures var e := (calls + [c])[d];
            && (NamedRun(ptds + p, e.oldsz, k) <==> InRun(e.mems, k))
            && (NamedPage(pted + q, e.oldsz, k) <==> Alone(e.mems, k))
            && NamedOnce(ptds + p, pted + q, e.oldsz, k)
  {
    hide FromCall, NamedRun, NamedPage, NamedOnce, InRun, Alone;
    CallsSplit(calls, c);
    if d < |calls| {
      var e := calls[d];
      assert (calls + [c])[d] == e;
      Concat(ptds, pted, p, q, e.oldsz, k);
      assert Told(e.oldsz, e.mems, ptds, pted);
      NotNamed([c], p, q, e.oldsz, k);
    } else {
      Concat(ptds, pted, p, q, c.oldsz, k);
      NotNamed(calls, ptds, pted, c.oldsz, k);
    }
  }

  /** The records that uvmalloc makes in a number of calls. */
  method RecordAll(calls: seq<Call>) returns (ptds: seq<nat>, pted: seq<nat>)
    requires Calls(calls)
    ensures AllTold(calls, ptds, pted)
  {
    hide Told, FromCall, Sound;
    ptds, pted := [], [];
    NothingTold();
    var i := 0;
    while i < |calls|
      invariant 0 <= i <= |calls| && AllTold(calls[..i], ptds, pted)
    {
      var p, q := Record(calls[i].oldsz, calls[i].mems);
      CallsPrefix(calls, i + 1);
      assert calls[..i + 1] == calls[..i] + [calls[i]];
      MoreTold(calls[..i], ptds, pted, calls[i], p, q);
      ptds, pted := ptds + p, pted + q;
      i := i + 1;
    }
    assert calls[..i] == calls;
  }

  lemma NothingTold()
    ensures AllTold([], [], [])
  {
  }

  lemma CallsPrefix(calls: seq<Call>, n: nat)
    requires Calls(calls) && n <= |calls|
    ensures Calls(calls[..n])
  {
  }

  /**
   A table that breaks after any number of calls of uvmalloc is rebuilt from their records.
   When the page above its region is in no run, every page comes back as it was mapped, but
   for those the recorder skipped and the rest of runs that begin below. Exactly then it is
   sure that nothing is written past the table and no address gets a wrong page.
   */
  method Recover(calls: seq<Call>, sva: nat) returns (ok: bool, res: int, page: Page)
    requires Calls(calls) && sva % REGION == 0
    ensures Clear(calls, sva) <==> ok && res == 0 && Safe(page, LiveTable(calls, sva))
    ensures Clear(calls, sva) ==> AsMapped(calls, sva, page)
  {
    var ptds, pted := RecordAll(calls);
    ok, res, page := Rebuild(ptds, pted, sva);
    ClearFits(calls, ptds, pted, sva);
    FitsExact(ptds, sva);
    hide Calls, AllTold, Clear, Given, Once, Inside, AsMapped, Fits, LiveTable, Used, VaOf, LowBits;
    if Clear(calls, sva) {
      RecordsOnce(calls, ptds, pted, sva);
      RebuiltAsMapped(calls, ptds, pted, sva, page);
      AsMappedSafe(calls, sva, page);
    } else if ok && res == 0 {
      NotClearWrong(calls, ptds, pted, sva, page);
    }
  }

  /** Calls that were each given one run of pages, none of them reaching in from below: all of the table comes back. */
  lemma WholeTable(calls: seq<Call>, sva: nat, page: Page)
    requires Calls(calls) && sva % REGION == 0 && AsMapped(calls, sva, page)
    requires forall c :: 0 <= c < |calls| ==>
               && (calls[c].End() <= sva || sva <= calls[c].oldsz)
               && exists order: nat :: IsRun(calls[c].mems, 0, |calls[c].mems|, order)
    ensures forall k :: 0 <= k < NPTE ==>
              var live := LiveTable(calls, sva)[k]; page[k] == if live == 0 then 0 else live + PTE_D
  {
    hide LiveEntry, Begun, Skipped, Mapping, IsRun;
    forall k | 0 <= k < NPTE && LiveTable(calls, sva)[k] != 0
      ensures page[k] == LiveTable(calls, sva)[k] + PTE_D
    {
      RegionPage(sva, k);
      LiveOnlyAt(calls, sva + k * PGSIZE);
      var c, m :| PageIn(calls, c, m, sva + k * PGSIZE);
      LiveAt(calls, c, m, sva + k * PGSIZE);
      RunKept(calls[c], sva, m);
    }
  }

  lemma RunKept(c: Call, sva: nat, m: nat)
    requires m < |c.mems| && sva <= c.oldsz && exists order: nat :: IsRun(c.mems, 0, |c.mems|, order)
    ensures !Skipped(c.mems, m) && !Begun(c, sva, m)
  {
    var order: nat :| IsRun(c.mems, 0, |c.mems|, order);
    forall i | 0 <= i < |c.mems|
      ensures !Breaks(c.mems, i)
    {
      if i > 0 {
        assert c.mems[0 + (i - 1)] == RunPage(c.mems[0], order, i - 1) && c.mems[0 + i] == RunPage(c.mems[0], order, i);
      }
    }
    hide Breaks;
  }
}
