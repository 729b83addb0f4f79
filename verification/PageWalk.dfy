/**
 walk and mappages of kernel/vm.c, PTDUP's upkeep in kernel/ptdup.c, and the recovery of
 broken tables in kernel/recovery_handler_pagetable.c, for one process. A method returns
 ok == false where the kernel panics.
 */
module PageWalk {
  import opened Params
  import opened PageTable
  import PtRecords
  import PtRebuild

  const PTDUP_SIZE := NPROC + 2

  class PageTables {
    var mem: map<nat, Page>
    var root: nat            // the process's L2 table
    const l2: nat            // ptdup_head[my].l2
    const l1: nat            // ptdup_head[my].l1
    const my: nat            // the process's index in idx_ptdup
    var idx: seq<nat>        // idx_ptdup
    var free: set<nat>       // kalloc's free pages
    ghost var role: map<nat, Role>

    /** A process's tables as ptdup_init leaves them: three zeroed pages, managed under index at. */
    constructor (table: nat, copy: nat, dir: nat, at: nat, indexes: seq<nat>, pages: set<nat>)
      requires IsPage(table) && IsPage(copy) && IsPage(dir) && table != copy && table != dir && copy != dir
      requires |indexes| == PTDUP_SIZE && at < PTDUP_SIZE
      requires forall k :: 0 <= k < PTDUP_SIZE ==> indexes[k] != table && indexes[k] !in pages
      requires forall p :: p in pages ==> IsPage(p) && p != table && p != copy && p != dir
      ensures Valid() && S().Mirror() && Unmapped(S())
      ensures root == table && my == at && idx == indexes[at := table] && free == pages
    {
      mem := map[table := ZeroPage(), copy := ZeroPage(), dir := ZeroPage()];
      role := map[table := Top, copy := Copy2, dir := Dir];
      root, l2, l1, my := table, copy, dir, at;
      idx, free := indexes[at := table], pages;
      new;
      EmptyTables(S());
    }

    /**
     uvmcreate and ptdup_init for a new process: null stands for a panic, or a null page
     followed, which happens exactly when no index is left or fewer than five pages.
     */
    static method Create(indexes: seq<nat>, pages: set<nat>) returns (t: PageTables?)
      requires |indexes| == PTDUP_SIZE && forall k :: 0 <= k < PTDUP_SIZE ==> indexes[k] !in pages
      requires forall p :: p in pages ==> IsPage(p)
      ensures t == null <==> 0 !in indexes || |pages| < 5
      ensures t != null ==>
                && fresh(t) && t.Valid() && t.S().Mirror() && Unmapped(t.S())
                && indexes[t.my] == 0 && t.idx == indexes[t.my := t.root]
                && (forall k :: 0 <= k < t.my ==> indexes[k] != 0)
                && t.root in pages && t.free < pages && |t.free| == |pages| - 5
    {
      t := null;
      var left := pages;
      var got: seq<nat> := [];
      while |got| < 5 && left != {}
        invariant |got| <= 5 && left <= pages && |left| == |pages| - |got|
        invariant forall i :: 0 <= i < |got| ==> got[i] in pages && got[i] !in left
        invariant forall i, j :: 0 <= i < j < |got| ==> got[i] != got[j]
      {
        var p :| p in left;
        left := left - {p};
        got := got + [p];
      }
      var at := 0;
      while at < PTDUP_SIZE && indexes[at] != 0
        invariant 0 <= at <= PTDUP_SIZE
        invariant forall k :: 0 <= k < at ==> indexes[k] != 0
      {
        at := at + 1;
      }
      if at == PTDUP_SIZE || |got| < 5 { return; }
      // got[3] and got[4] become the list pages of L0 records.
      t := new PageTables(got[0], got[1], got[2], at, indexes, left);
    }

    ghost function S(): Tables
      reads this
    {
      Tables(mem, root, l2, l1, role)
    }

    ghost predicate Indexed()
      reads this
    {
      my < |idx| == PTDUP_SIZE && idx[my] == root && forall k :: 0 <= k < PTDUP_SIZE && k != my ==>
          idx[k] != root && idx[k] !in free
    }

    ghost predicate Fresh()
      reads this
    {
      forall p :: p in free ==> IsPage(p) && p !in role
    }

    ghost predicate Valid()
      reads this
    {
      S().Valid() && Indexed() && Fresh()
    }

    function At(p: nat, i: nat): nat
      reads this`mem
    {
      if p in mem && i < NPTE then mem[p][i] else 0
    }

    lemma Reads(p: nat, i: nat)
      ensures At(p, i) == S().E(p, i)
      ensures At(root, i) == S().E2(i) && At(l2, i) == S().C2(i) && At(l1, i) == S().D1(i)
    {
    }

    /** kalloc and memset: a zeroed page, or 0 exactly when none is free. */
    method AllocPage(ghost r: Role) returns (p: nat)
      requires Valid()
      modifies this`mem, this`free, this`role
      ensures p == 0 <==> old(free) == {}
      ensures p == 0 ==> S() == old(S()) && free == old(free)
      ensures p != 0 ==> p in old(free) && free == old(free) - {p} && S().Has(p, r) && Blank(S(), p)
      ensures SameLive(old(S()), S()) && SameCopy(old(S()), S()) && Valid()
      ensures S().root == old(S()).root && forall q, s :: old(S()).Has(q, s) ==> S().Has(q, s)
    {
      hide Tables.E, Tables.Valid;
      if free == {} { return 0; }
      p :| p in free;
      ghost var t := S();
      free := free - {p};
      mem := mem[p := ZeroPage()];
      role := role[p := r];
      AddIs(t, p, ZeroPage(), r);
      AddKeeps(t, S(), p, r);
    }

    method Store(p: nat, i: nat, x: nat)
      requires p in mem && i < NPTE
      modifies this`mem
      ensures OneSet(old(S()), S(), p, i, x)
    {
      SetIs(S(), p, i, x);
      mem := mem[p := mem[p][i := x]];
    }

    /** The first index that manages the L2 table at p; PTDUP_SIZE if there is none. */
    method FindIdx(p: nat) returns (i: nat)
      requires |idx| == PTDUP_SIZE
      ensures i <= PTDUP_SIZE && (i < PTDUP_SIZE ==> idx[i] == p)
      ensures forall k :: 0 <= k < i ==> idx[k] != p
    {
      i := 0;
      while i < PTDUP_SIZE
        invariant 0 <= i <= PTDUP_SIZE
        invariant forall k :: 0 <= k < i ==> idx[k] != p
      {
        if idx[i] == p { return; }
        i := i + 1;
      }
    }

    /** The first entry of PTDUP's l2 copy that points to the table at p; NPTE if there is none. */
    method FindCopy(p: nat) returns (k: nat)
      ensures k <= NPTE && (k < NPTE ==> p == PaOf(S().C2(k)))
      ensures forall m :: 0 <= m < k ==> p != PaOf(S().C2(m))
    {
      hide PaOf;
      k := 0;
      while k < NPTE && p != PaOf(At(l2, k))
        invariant 0 <= k <= NPTE
        invariant forall m :: 0 <= m < k ==> p != PaOf(S().C2(m))
      {
        k := k + 1;
      }
    }

    /** ptdup_create_l1, just after walk linked the new L1 table at tab under entry i. */
    method PtdupCreateL1(tab: nat, pde: nat, ghost i: nat) returns (ok: bool)
      requires Valid() && i < NPTE && V(S().E2(i)) && tab == PaOf(S().E2(i))
      requires forall j :: 0 <= j < NPTE ==> S().E1(i, j) == 0
      modifies this`mem, this`free, this`role
      ensures ok <==> old(free) != {}
      ensures !ok ==> free == {}
      ensures SameLive(old(S()), S()) && Valid() && root == old(root) && free <= old(free)
      ensures ok && old(MirrorBut(i)) && pde == old(S()).E2(i) ==> S().Mirror()
    {
      hide Tables.E, Tables.Valid, Tables.Mirror, SameLive, SameCopy, OneSet, Pde, PaOf, Blank;
      var at := FindIdx(root);
      assert at == my;
      ghost var t0 := S();
      var k := 0;
      while k < NPTE
        invariant 0 <= k <= i
        invariant S() == t0 && Valid() && root == old(root) && free == old(free)
      {
        Reads(root, k);
        if tab == PaOf(At(root, k)) {
          OneMid(t0, i, k);
          var d := AllocPage(Copy1(k));
          if d == 0 { return false; }
          ghost var t1 := S();
          CopiesReadable(t1);
          Store(l1, k, d);
          CopyDir(t1, S(), k, d);
          ghost var t2 := S();
          CopiesReadable(t2);
          Store(l2, k, pde);
          CopyTop(t2, S(), k, pde);
          MirrorMid(t0, t1, t2, S(), k, pde);
          return true;
        }
        k := k + 1;
      }
      assert false;
    }

    /** ptdup_update, just after walk linked a new L0 table under entry j of the L1 table at tab. */
    method PtdupUpdate(tab: nat, pde: nat, j: nat, ghost i: nat) returns (ok: bool)
      requires Valid() && i < NPTE && j < NPTE && V(S().E2(i)) && tab == PaOf(S().E2(i))
      modifies this`mem
      ensures !ok ==> S() == old(S())
      ensures SameLive(old(S()), S()) && Valid()
      ensures LowMissing(old(S()), i, j) && pde == old(S()).E1(i, j) ==> ok && S().Mirror()
    {
      hide Tables.E, Tables.Valid, Tables.Mirror, OneSet, Pde, PaOf;
      ghost var t := S();
      var at := FindIdx(root);
      assert at == my;
      var k := FindCopy(tab);
      assert S() == t;
      MirrorFound(t, i, j, k);
      if k < NPTE {
        Reads(l1, k);
      }
      if k == NPTE || At(l1, k) == 0 { return false; }
      TargetReadable(t, k);
      Store(At(l1, k), j, pde);
      CopyMid(t, S(), k, j, pde);
      MirrorLow(t, S(), i, j, k, pde);
      return true;
    }

    /** walk at level 2: the L1 table behind entry i, made if missing and alloc; 0 for none. */
    method WalkTop(i: nat, alloc: bool, nextpid: nat) returns (ok: bool, tab: nat)
      requires Valid() && i < NPTE
      modifies this`mem, this`free, this`role
      ensures V(old(S()).E2(i)) || !alloc ==> ok && S() == old(S()) && free == old(free)
      ensures Valid() && root == old(root) && SameLow(old(S()), S()) && free <= old(free)
      ensures ok ==> (tab != 0 <==> V(S().E2(i))) && (tab != 0 ==> tab == PaOf(S().E2(i)))
      ensures ok && tab == 0 ==> free == old(free) && (alloc ==> free == {})
      ensures ok && free == old(free) ==> S() == old(S())
      ensures !ok ==> nextpid > 2 && free == {}
      ensures forall l, m {:trigger S().E1(l, m)} :: 0 <= l < NPTE && 0 <= m < NPTE ==>
                S().E1(l, m) == old(S()).E1(l, m)
      ensures ok && old(S()).Mirror() && nextpid > 2 ==> S().Mirror()
      ensures nextpid <= 2 ==> SameCopy(old(S()), S()) && (free != old(free) ==> S().E2(i) != old(S()).E2(i))
    {
      hide Tables.E, Tables.Mirror, OneSet, Pde, PaOf, Blank, Tables.E0, Tables.E1;
      ghost var t := S();
      Reads(root, i);
      if V(At(root, i)) { return true, PaOf(At(root, i)); }
      if !alloc { return true, 0; }
      EmptyEntry(t, i, 0);
      tab := AllocPage(Mid(i));
      if tab == 0 { return true, 0; }
      ghost var u := S();
      CopiesReadable(u);
      Store(root, i, Pde(tab));
      LinkMid(u, S(), i, tab);
      PdeRoundTrip(tab);
      MidLinked(t, S(), i);
      ok := true;
      if nextpid > 2 {
        ok := PtdupCreateL1(tab, Pde(tab), i);
      }
    }

    /** walk at level 1: the L0 table behind entry j of the L1 table at top, made if missing and alloc; 0 for none. */
    method WalkMid(i: nat, top: nat, j: nat, alloc: bool, nextpid: nat) returns (ok: bool, tab: nat)
      requires Valid() && i < NPTE && j < NPTE && V(S().E2(i)) && top == PaOf(S().E2(i))
      modifies this`mem, this`free, this`role
      ensures V(old(S()).E1(i, j)) || !alloc ==> ok && S() == old(S()) && free == old(free)
      ensures Valid() && root == old(root) && SameLow(old(S()), S()) && free <= old(free)
      ensures ok ==> (tab != 0 <==> V(S().E1(i, j))) && (tab != 0 ==> tab == PaOf(S().E1(i, j)))
      ensures ok && tab == 0 ==> free == old(free) && (alloc ==> free == {})
      ensures ok && free == old(free) ==> S() == old(S())
      ensures !ok ==> nextpid > 2 && !old(S()).Mirror()
      ensures ok && old(S()).Mirror() && nextpid > 2 ==> S().Mirror()
      ensures forall l {:trigger S().E2(l)} :: 0 <= l < NPTE ==> S().E2(l) == old(S()).E2(l)
      ensures nextpid <= 2 ==> SameCopy(old(S()), S()) && (free != old(free) ==> S().E1(i, j) != old(S()).E1(i, j))
    {
      hide Tables.E, Tables.Mirror, OneSet, Pde, PaOf, Blank, Tables.E0, Tables.E2;
      ghost var t := S();
      Reads(top, j);
      MidEntry(t, i, j);
      if V(At(top, j)) { return true, PaOf(At(top, j)); }
      if !alloc { return true, 0; }
      EmptyEntry(t, i, j);
      tab := AllocPage(Low(i, j));
      if tab == 0 { return true, 0; }
      ghost var u := S();
      EmptyEntry(u, i, j);
      Store(top, j, Pde(tab));
      LinkLow(u, S(), i, j, tab);
      PdeRoundTrip(tab);
      LowLinked(t, S(), i, j);
      ok := true;
      if nextpid > 2 {
        ok := PtdupUpdate(top, Pde(tab), j, i);
      }
    }

    /**
     walk, its two rounds written out. Without alloc nothing changes and the answer is 0
     exactly when va has no L0 table. With alloc the table is made if memory lasts; no
     translation changes, and PTDUP stays equal to the live tables when nextpid > 2. With
     nextpid <= 2 it stays so only if nothing was allocated.
     */
    method Walk(va: nat, alloc: bool, nextpid: nat) returns (ok: bool, tab: nat)
      requires Valid()
      modifies this`mem, this`free, this`role
      ensures va >= MAXVA ==> !ok
      ensures va >= MAXVA || !alloc || Mapped(old(S()), va) ==>
                S() == old(S()) && free == old(free) && (ok <==> va < MAXVA)
      ensures Valid() && root == old(root) && SameLow(old(S()), S())
      ensures ok && tab != 0 ==> Mapped(S(), va) && tab == PaOf(S().E1(PX(2, va), PX(1, va)))
      ensures ok && tab == 0 ==> !Mapped(S(), va) && (alloc ==> free == {})
      ensures ok && old(S()).Mirror() && nextpid > 2 ==> S().Mirror()
      ensures !ok && va < MAXVA ==> nextpid > 2 && (old(S()).Mirror() ==> free == {})
      ensures ok && old(S()).Mirror() && nextpid <= 2 ==> (S().Mirror() <==> free == old(free))
    {
      hide Tables.E, Tables.Mirror, Tables.Valid, Pde, PaOf, Tables.E0, PX;
      if va >= MAXVA { return false, 0; }
      ghost var t := S();
      var i, j := PX(2, va), PX(1, va);
      EmptyEntry(t, i, j);
      ok, tab := WalkTop(i, alloc, nextpid);
      if !ok || tab == 0 {
        return;
      }
      ghost var u := S();
      ok, tab := WalkMid(i, tab, j, alloc, nextpid);
      if nextpid <= 2 && t.Mirror() && free != old(free) {
        SameCopyTransitive(t, u, S());
        OutOfDate(t, S(), i, j);
      }
    }

    /**
     mappages: the pages of [va, va + size) map to consecutive physical pages from pa on, and
     no other translation changes. -1 when memory runs out, with a prefix mapped. It panics at
     `end` only if that page was mapped already or lies outside the address space, or if walk
     cannot bring PTDUP in step, for want of memory or because it was not in step before.
     */
    method Mappages(va: nat, size: nat, pa: nat, perm: nat, nextpid: nat) returns (ok: bool, r: int, ghost end: nat)
      requires Valid() && size > 0 && perm < 1024
      modifies this`mem, this`free, this`role
      ensures Valid() && root == old(root)
      ensures ok ==> (r == 0 || r == -1) && end % PGSIZE == 0 && end <= MAXVA
      ensures ok ==> RangeMapped(old(S()), S(), PageOf(va), end, pa, perm)
      ensures ok ==> forall v: nat {:trigger S().Leaf(v)} :: v < MAXVA ==>
                if PageOf(va) <= v - v % PGSIZE < end then Stores(S().Leaf(v), pa + (v - v % PGSIZE - PageOf(va)), perm)
                else S().Leaf(v) == old(S()).Leaf(v)
      ensures ok && r == 0 ==> end == PageOf(va + size - 1) + PGSIZE
      ensures ok && r == -1 ==> free == {} && PageOf(va) <= end <= PageOf(va + size - 1)
      ensures ok && old(S()).Mirror() && nextpid > 2 ==> S().Mirror()
      ensures PageOf(va + size - 1) >= MAXVA ==> !ok || r == -1
      ensures !ok ==>
                && PageOf(va) <= end <= PageOf(va + size - 1)
                && (end >= MAXVA || V(old(S()).Leaf(end)) || (nextpid > 2 && (old(S()).Mirror() ==> free == {})))
    {
      hide PageTables.Valid, Tables.Leaf, Tables.Mirror, Mapped, RangeMapped, LeafSet, SameLeaves, Mapping, PageOf;
      hide Stores;
      ghost var t := S();
      RangeStart(t, PageOf(va), pa, perm);
      PageOrder(va, va + size - 1);
      var a, last, at := PageOf(va), PageOf(va + size - 1), pa;
      end := a;
      r := 0;
      while true
        invariant a % PGSIZE == 0 && PageOf(va) <= a <= last && at == pa + (a - PageOf(va)) && end == a
        invariant Valid() && root == old(root)
        invariant a <= MAXVA || a == PageOf(va)
        invariant RangeMapped(t, S(), PageOf(va), a, pa, perm)
        invariant t.Mirror() && nextpid > 2 ==> S().Mirror()
        decreases last - a
      {
        ghost var u := S();
        ok, r := MapOne(a, at, perm, nextpid);
        if !ok {
          if a < MAXVA { NotYetMapped(t, u, PageOf(va), a, pa, perm); }
          return;
        }
        if r == -1 {
          RangeSame(t, u, S(), PageOf(va), a, pa, perm);
          RangeBits(t, S(), PageOf(va), a, pa, perm);
          return;
        }
        end := a + PGSIZE;
        NextPage(a, last);
        RangeStep(t, u, S(), PageOf(va), a, pa, perm);
        if a == last { break; }
        a := a + PGSIZE;
        at := at + PGSIZE;
      }
      RangeBits(t, S(), PageOf(va), end, pa, perm);
    }

    /** One round of mappages. */
    method MapOne(a: nat, pa: nat, perm: nat, nextpid: nat) returns (ok: bool, r: int)
      requires Valid() && a % PGSIZE == 0
      modifies this`mem, this`free, this`role
      ensures Valid() && root == old(root)
      ensures ok ==> a < MAXVA && (r == 0 || r == -1)
      ensures ok && r == -1 ==> free == {} && SameLeaves(old(S()), S())
      ensures ok && r == 0 ==> !V(old(S()).Leaf(a)) && LeafSet(old(S()), S(), a, Mapping(pa, perm))
      ensures ok && old(S()).Mirror() && nextpid > 2 ==> S().Mirror()
      ensures !ok && a < MAXVA ==> V(old(S()).Leaf(a)) || (nextpid > 2 && (old(S()).Mirror() ==> free == {}))
    {
      hide Tables.E, Tables.Mirror, Tables.Valid, Pde, PaOf, Tables.Leaf, PX, Mapping, SameLow;
      ghost var t := S();
      var tab;
      r := 0;
      ok, tab := Walk(a, true, nextpid);
      if !ok { return; }
      LowGivesLeaves(t, S());
      if tab == 0 { return true, -1; }
      ghost var u := S();
      EmptyEntry(u, PX(2, a), PX(1, a));
      LeafRead(u, a);
      Reads(tab, PX(0, a));
      if V(At(tab, PX(0, a))) { return false, 0; }
      Store(tab, PX(0, a), Mapping(pa, perm));
      StoreLeaf(u, S(), a, Mapping(pa, perm));
    }

    // ----- recovery of a broken table

    /** kalloc and memset for the replacement page, before it has a role. */
    method NewPage() returns (p: nat)
      requires forall q :: q in free ==> IsPage(q) && q !in role
      modifies this`mem, this`free
      ensures p == 0 <==> old(free) == {}
      ensures p == 0 ==> mem == old(mem) && free == old(free)
      ensures p != 0 ==> p in old(free) && free == old(free) - {p} && p in mem && mem == old(mem)[p := ZeroPage()]
    {
      if free == {} { return 0; }
      p :| p in free;
      free := free - {p};
      mem := mem[p := ZeroPage()];
    }

    /** recovery_L2's loop over the first NPROC + 1 entries of idx_ptdup. */
    method SwitchIdx(address: nat, p: nat)
      requires |idx| == PTDUP_SIZE
      modifies this`idx
      ensures |idx| == PTDUP_SIZE
      ensures forall m :: 0 <= m < PTDUP_SIZE ==>
                idx[m] == if m <= NPROC && old(idx)[m] == address then p else old(idx)[m]
    {
      ghost var was := idx;
      var k := 0;
      while k <= NPROC
        invariant 0 <= k <= NPROC + 1 && |idx| == PTDUP_SIZE
        invariant forall m :: 0 <= m < PTDUP_SIZE ==> idx[m] == if m < k && was[m] == address then p else was[m]
      {
        if idx[k] == address {
          idx := idx[k := p];
        }
        k := k + 1;
      }
    }

    /**
     recovery_L2: the broken L2 table is replaced by PTDUP's copy. No translation changes and
     the copies are in step again. But for a process under the last index, NPROC + 1, idx_ptdup
     goes on naming the broken table.
     */
    method RecoverL2(ghost t: Tables) returns (ok: bool)
      requires t.Valid() && t.Mirror() && Broken(t, S(), t.root) && Indexed() && Fresh()
      modifies this
      ensures ok <==> old(free) != {}
      ensures ok ==> S().Valid() && S().Mirror() && SameLive(t, S()) && SameCopy(t, S())
      ensures ok ==> (Valid() <==> my <= NPROC)
      ensures ok && my > NPROC ==> root != t.root && |idx| == PTDUP_SIZE && idx[my] == t.root && !Indexed()
    {
      hide Tables.Valid, Tables.Mirror, SameLive, SameCopy;
      var address := root;
      RolesReadable(t);
      var p := NewPage();
      if p == 0 { return false; }
      mem := mem[p := mem[l2]];
      root := p;
      role := (role - {address})[p := Top];
      ReplacedTop(t, S(), p);
      SwapTop(t, S(), p);
      SwitchIdx(address, p);
      ok := true;
    }

    /**
     recovery_L1: the broken L1 table is replaced by PTDUP's copy, in the live L2 table and in
     its duplicate. No translation changes and the copies are in step again.
     */
    method RecoverL1(ghost t: Tables, ghost i: nat, address: nat) returns (ok: bool)
      requires t.Valid() && t.Mirror() && i < NPTE && V(t.E2(i)) && address == PaOf(t.E2(i))
      requires Broken(t, S(), address) && Indexed() && Fresh()
      modifies this
      ensures ok <==> old(free) != {}
      ensures ok ==> Valid() && S().Mirror() && SameLow(t, S())
    {
      hide Tables.Valid, Tables.Mirror, SameLow, PaOf, Pde, Tables.E;
      hide Tables.E2, Tables.E1, Tables.E0, Tables.C2, Tables.C1, Tables.D1, V;
      RolesReadable(t);
      MidRole(t, i);
      var p := NewPage();
      if p == 0 { return false; }
      var k := FindCopy(address);
      forall m: nat | m < NPTE
        ensures S().C2(m) == t.C2(m) && S().D1(m) == t.D1(m)
      {
        CopyRead(t, S(), address, p, m);
      }
      FoundMid(t, i, k);
      Reads(l1, k);
      RelinkMid(t, k, address, p, At(l1, k));
      ok := true;
    }

    /** The copy at target goes to page p, which takes the place of the L1 table at address. */
    method RelinkMid(ghost t: Tables, i: nat, address: nat, p: nat, target: nat)
      requires t.Valid() && t.Mirror() && i < NPTE && V(t.E2(i)) && address == PaOf(t.E2(i)) && target == t.D1(i)
      requires t.Has(target, Copy1(i)) && t.Has(t.root, Top) && t.Has(t.l2, Copy2) && t.Has(address, Mid(i))
      requires root == t.root && l2 == t.l2 && l1 == t.l1 && role == t.role && IsPage(p) && p !in t.role && p in mem
      requires forall q :: q in t.mem && q != address && q != p ==> q in mem && mem[q] == t.mem[q]
      requires forall q :: q in mem && q != address && q != p ==> q in t.mem
      modifies this`mem, this`role
      ensures S().Valid() && S().Mirror() && SameLow(t, S()) && role == (old(role) - {address})[p := Mid(i)]
    {
      hide Tables.Valid, Tables.Mirror, SameLow, PaOf, Pde, Tables.E, Tables.E2, Tables.D1, V;
      mem := mem[p := mem[target]];
      mem := mem[root := mem[root][i := Pde(p)]];
      mem := mem[l2 := mem[l2][i := Pde(p)]];
      role := (role - {address})[p := Mid(i)];
      ReplacedMid(t, S(), i, p);
      SwapMid(t, S(), i, p);
    }

    /** The first entry of PTDUP's L1 copies that points to the table at p; i == NPTE if there is none. */
    method FindLow(p: nat) returns (i: nat, j: nat)
      ensures i <= NPTE && (i < NPTE ==> j < NPTE && S().D1(i) != 0 && p == PaOf(S().C1(i, j)))
      ensures i == NPTE ==> forall l, m :: 0 <= l < NPTE && 0 <= m < NPTE && S().D1(l) != 0 ==> p != PaOf(S().C1(l, m))
    {
      hide PaOf;
      i, j := 0, 0;
      while i < NPTE
        invariant 0 <= i <= NPTE
        invariant forall l, m :: 0 <= l < i && 0 <= m < NPTE && S().D1(l) != 0 ==> p != PaOf(S().C1(l, m))
      {
        if At(l1, i) != 0 {
          j := 0;
          while j < NPTE && p != PaOf(At(At(l1, i), j))
            invariant 0 <= j <= NPTE
            invariant forall m :: 0 <= m < j ==> p != PaOf(S().C1(i, m))
          {
            j := j + 1;
          }
          if j < NPTE { return; }
        }
        i := i + 1;
      }
    }

    /** The rebuilt table at page p takes the place of the L0 table at address. */
    method RelinkLow(ghost t: Tables, i: nat, j: nat, address: nat, p: nat, page: Page)
      requires t.Valid() && t.Mirror() && i < NPTE && j < NPTE && V(t.E1(i, j)) && address == PaOf(t.E1(i, j))
      requires t.Has(PaOf(t.E2(i)), Mid(i)) && t.Has(t.D1(i), Copy1(i)) && t.Has(address, Low(i, j)) &&
                 t.Has(t.root, Top) && t.Has(t.l1, Dir)
      requires root == t.root && l2 == t.l2 && l1 == t.l1 && role == t.role && IsPage(p) && p !in t.role && p in mem
      requires forall q :: q in t.mem && q != address && q != p ==> q in mem && mem[q] == t.mem[q]
      requires forall q :: q in mem && q != address && q != p ==> q in t.mem
      modifies this`mem, this`role
      ensures S().Valid() && S().Mirror() && role == (old(role) - {address})[p := Low(i, j)]
      ensures forall l, m, n {:trigger S().E0(l, m, n)} :: 0 <= l < NPTE && 0 <= m < NPTE && 0 <= n < NPTE ==>
                S().E0(l, m, n) == if l == i && m == j then page[n] else t.E0(l, m, n)
    {
      hide Tables.Valid, Tables.Mirror, PaOf, Pde, Tables.E, Tables.E1, Tables.E0, V;
      Reads(root, i);
      Reads(l1, i);
      KeptEntry(t, S(), address, p, t.root, i);
      KeptEntry(t, S(), address, p, t.l1, i);
      var a, d := PaOf(At(root, i)), At(l1, i);
      mem := mem[p := page];
      mem := mem[a := mem[a][j := Pde(p)]];
      mem := mem[d := mem[d][j := Pde(p)]];
      role := (role - {address})[p := Low(i, j)];
      ReplacedLow(t, S(), i, j, p, page);
      SwapLow(t, S(), i, j, p, page);
    }

    /**
     recovery_L0: the broken L0 table behind entry j of L1 table i is rebuilt from the records
     and linked in the live L1 table and its duplicate. No other leaf changes. The records are
     looked up for the address ShiftVa, which is the table's own for the first two L1 tables
     only. There, if no run reaches the next region and the records agree with the live table
     but for A, D and G, no address translates differently than before, except that a page no
     record covers is gone. From L1 tables 2 and 3, and every fourth from there, all is gone.
     In the end the records agree with the new table.
     */
    method RecoverL0(ghost t: Tables, ghost i: nat, ghost j: nat, address: nat, ptds: seq<nat>, pted: seq<nat>)
      returns (ok: bool, killed: bool)
      requires t.Valid() && t.Mirror() && i < NPTE && j < NPTE && V(t.E1(i, j)) && address == PaOf(t.E1(i, j))
      requires Broken(t, S(), address) && Indexed() && Fresh() && Words(ptds) && Words(pted)
      modifies this
      ensures ok <==> old(free) != {} && PtRebuild.Inside(ptds, ShiftVa(i, j), |ptds|)
      ensures ok ==> (killed <==> !PtRebuild.Once(ptds, pted, ShiftVa(i, j)))
      ensures ok && !killed ==> Valid() && S().Mirror() && LowReplaced(t, S(), i, j)
      ensures ok && !killed ==> PtRebuild.Given(ptds, pted, ShiftVa(i, j), LowTable(S(), i, j))
      ensures ok && !killed && i % 4 >= 2 ==> LowTable(S(), i, j) == ZeroPage()
      ensures ok && !killed ==> PtRebuild.Agree(ptds, pted, ShiftVa(i, j), LowTable(S(), i, j))
      ensures ok && !killed && i <= 1 && PtRebuild.Fits(ptds, RegionVa(i, j))
              && PtRebuild.Agree(ptds, pted, RegionVa(i, j), LowTable(t, i, j)) ==>
                forall va :: 0 <= va ==>
                  S().Translate(va) == if Lost(ptds, pted, i, j, va) then 0 else t.Translate(va)
    {
      hide Tables.Valid, Tables.Mirror, SameLow, PaOf, Pde, Tables.E, Tables.E2, Tables.E1, Tables.E0, Tables.C2;
      hide Tables.C1, Tables.D1, V, PtRebuild.Fits, PtRebuild.Agree, PtRebuild.Once, PtRebuild.Given, PtRebuild.Inside;
      hide LowReplaced, LowTable, Lost, Tables.Translate;
      killed := false;
      RolesReadable(t);
      LowRole(t, i, j);
      var p := NewPage();
      if p == 0 { return false, false; }
      var l, m := FindLow(address);
      FoundLow(t, S(), i, j, p, l, m);
      ShiftExact(l, m);
      var res, page;
      ok, res, page := PtRebuild.Rebuild(ptds, pted, ShiftVa(l, m));
      if !ok || res != 0 { return ok, true; }
      RelinkLow(t, l, m, address, p, page);
      LowRebuilt(t, S(), l, m, page);
      PtRebuild.AgreesAgain(ptds, pted, ShiftVa(l, m), page);
      if i % 4 >= 2 { NothingThere(ptds, pted, i, j, page); }
      if i <= 1 && PtRebuild.Fits(ptds, RegionVa(i, j)) &&
          PtRebuild.Agree(ptds, pted, RegionVa(i, j), LowTable(t, i, j)) {
        forall va: nat
          ensures S().Translate(va) == if Lost(ptds, pted, i, j, va) then 0 else t.Translate(va)
        {
          TranslationAfterL0(t, S(), i, j, ptds, pted, va);
        }
      }
    }

    /** PTDUP is up to date but for entry i, under which the live table is new and empty. */
    ghost predicate MirrorBut(i: nat)
      reads this
    {
      MidMissing(S(), i)
    }
  }

  /** The page that comes next in mappages has the leaf it started with. */
  lemma NotYetMapped(t: Tables, u: Tables, from: nat, a: nat, pa: nat, perm: nat)
    requires RangeMapped(t, u, from, a, pa, perm) && a < MAXVA && a % PGSIZE == 0
    ensures u.Leaf(a) == t.Leaf(a)
  {
    hide Tables.Leaf;
    assert PageOf(a) == a;
  }

  lemma PageOrder(a: nat, b: nat)
    requires a <= b
    ensures PageOf(a) <= PageOf(b) && PageOf(a) % PGSIZE == 0 && PageOf(b) % PGSIZE == 0
  {
  }

  lemma NextPage(a: nat, last: nat)
    requires a % PGSIZE == 0 && last % PGSIZE == 0
    ensures (a + PGSIZE) % PGSIZE == 0 && (a < last ==> a + PGSIZE <= last)
    ensures a < MAXVA ==> a + PGSIZE <= MAXVA
  {
  }

  /** No address has a leaf. */
  ghost predicate Unmapped(t: Tables) {
    forall i, j, k {:trigger t.E0(i, j, k)} :: 0 <= i < NPTE && 0 <= j < NPTE && 0 <= k < NPTE ==> t.E0(i, j, k) == 0
  }

  lemma EmptyTables(t: Tables)
    requires t.Has(t.root, Top) && t.Has(t.l2, Copy2) && t.Has(t.l1, Dir)
    requires forall p :: p in t.mem ==> t.mem[p] == ZeroPage()
    ensures t.Valid() && t.Mirror() && Unmapped(t)
  {
  }

  ghost predicate MidMissing(t: Tables, i: nat) {
    && (forall l {:trigger t.C2(l)} {:trigger t.E2(l)} :: 0 <= l < NPTE && l != i ==> t.C2(l) == t.E2(l))
    && (forall l {:trigger t.D1(l)} {:trigger t.E2(l)} :: 0 <= l < NPTE && l != i ==> (t.D1(l) == 0 <==> t.E2(l) == 0))
    && (forall l, j {:trigger t.C1(l, j)} {:trigger t.E1(l, j)} :: 0 <= l < NPTE && 0 <= j < NPTE && l != i ==>
          t.C1(l, j) == t.E1(l, j))
  }

  lemma CopiesReadable(t: Tables)
    requires t.Valid()
    ensures t.l1 in t.mem && t.l2 in t.mem && t.root in t.mem
  {
  }

  lemma MirrorMid(t0: Tables, t1: Tables, t2: Tables, t3: Tables, i: nat, pde: nat)
    requires i < NPTE && V(t0.E2(i)) && forall j :: 0 <= j < NPTE ==> t0.E1(i, j) == 0
    requires SameLive(t0, t1) && SameCopy(t0, t1) && SameLive(t1, t2) && SameLive(t2, t3)
    requires forall l {:trigger t2.C2(l)} :: 0 <= l < NPTE ==> t2.C2(l) == t1.C2(l)
    requires forall l {:trigger t2.D1(l)} :: 0 <= l < NPTE && l != i ==> t2.D1(l) == t1.D1(l)
    requires t2.D1(i) != 0
    requires forall l, j {:trigger t2.C1(l, j)} :: 0 <= l < NPTE && 0 <= j < NPTE ==>
               t2.C1(l, j) == if l == i then 0 else t1.C1(l, j)
    requires forall l {:trigger t3.C2(l)} :: 0 <= l < NPTE ==> t3.C2(l) == if l == i then pde else t2.C2(l)
    requires forall l {:trigger t3.D1(l)} :: 0 <= l < NPTE ==> t3.D1(l) == t2.D1(l)
    requires forall l, j {:trigger t3.C1(l, j)} :: 0 <= l < NPTE && 0 <= j < NPTE ==> t3.C1(l, j) == t2.C1(l, j)
    ensures SameLive(t0, t3)
    ensures MidMissing(t0, i) && pde == t0.E2(i) ==> t3.Mirror()
  {
    hide Tables.E2, Tables.E1, Tables.E0, Tables.C2, Tables.C1, Tables.D1;
  }
  /** PTDUP is up to date but for its copy of entry j of L1 table i. */
  ghost predicate LowMissing(t: Tables, i: nat, j: nat) {
    && (forall l {:trigger t.C2(l)} {:trigger t.E2(l)} :: 0 <= l < NPTE ==> t.C2(l) == t.E2(l))
    && (forall l {:trigger t.D1(l)} {:trigger t.E2(l)} :: 0 <= l < NPTE ==> (t.D1(l) == 0 <==> t.E2(l) == 0))
    && (forall l, m {:trigger t.C1(l, m)} {:trigger t.E1(l, m)} ::
          0 <= l < NPTE && 0 <= m < NPTE && (l != i || m != j) ==> t.C1(l, m) == t.E1(l, m))
  }

  lemma MirrorFound(t: Tables, i: nat, j: nat, k: nat)
    requires t.Valid() && i < NPTE && j < NPTE && k <= NPTE && V(t.E2(i))
    requires forall m :: 0 <= m < k ==> PaOf(t.E2(i)) != PaOf(t.C2(m))
    requires k < NPTE ==> PaOf(t.E2(i)) == PaOf(t.C2(k))
    ensures LowMissing(t, i, j) ==> k == i && t.D1(k) != 0
  {
    hide Tables.E, Pde, PaOf, Tables.E1, Tables.C1;
    PdeNonZero();
    if LowMissing(t, i, j) {
      assert t.C2(i) == t.E2(i);
      if k < i {
        OneMid(t, i, k);
      }
    }
  }

  lemma TargetReadable(t: Tables, k: nat)
    requires t.Valid() && k < NPTE && t.D1(k) != 0
    ensures t.D1(k) in t.mem
  {
  }

  lemma MirrorLow(t: Tables, u: Tables, i: nat, j: nat, k: nat, pde: nat)
    requires i < NPTE && j < NPTE && k < NPTE && SameLive(t, u)
    requires forall l {:trigger u.C2(l)} :: 0 <= l < NPTE ==> u.C2(l) == t.C2(l)
    requires forall l {:trigger u.D1(l)} :: 0 <= l < NPTE ==> u.D1(l) == t.D1(l)
    requires forall l, m {:trigger u.C1(l, m)} :: 0 <= l < NPTE && 0 <= m < NPTE ==>
               u.C1(l, m) == if l == k && m == j then pde else t.C1(l, m)
    requires LowMissing(t, i, j) ==> k == i
    ensures LowMissing(t, i, j) && pde == t.E1(i, j) ==> u.Mirror()
  {
    hide Tables.E2, Tables.E1, Tables.E0, Tables.C2, Tables.C1, Tables.D1;
  }

  /** After linking an empty table under entry i of mirrored tables, only entry i is out of date. */
  lemma MidLinked(t: Tables, u: Tables, i: nat)
    requires t.Valid() && i < NPTE && t.E2(i) == 0 && SameCopy(t, u)
    requires forall l {:trigger u.E2(l)} :: 0 <= l < NPTE && l != i ==> u.E2(l) == t.E2(l)
    requires forall l, j {:trigger u.E1(l, j)} :: 0 <= l < NPTE && 0 <= j < NPTE ==> u.E1(l, j) == t.E1(l, j)
    ensures t.Mirror() ==> MidMissing(u, i)
    ensures forall j :: 0 <= j < NPTE ==> u.E1(i, j) == 0
  {
    hide Tables.E, Pde, PaOf, Tables.C2, Tables.C1, Tables.D1, Tables.E2, Tables.E0;
  }

  lemma MidEntry(t: Tables, i: nat, j: nat)
    ensures V(t.E2(i)) ==> t.E1(i, j) == t.E(PaOf(t.E2(i)), j)
  {
  }

  /** After linking an empty table under entry j of L1 table i, only that entry is out of date. */
  lemma LowLinked(t: Tables, u: Tables, i: nat, j: nat)
    requires i < NPTE && j < NPTE && SameCopy(t, u)
    requires forall l {:trigger u.E2(l)} :: 0 <= l < NPTE ==> u.E2(l) == t.E2(l)
    requires forall l, m {:trigger u.E1(l, m)} :: 0 <= l < NPTE && 0 <= m < NPTE && (l != i || m != j) ==>
               u.E1(l, m) == t.E1(l, m)
    ensures t.Mirror() ==> LowMissing(u, i, j)
  {
    hide Tables.E, Pde, PaOf, Tables.C2, Tables.C1, Tables.D1, Tables.E2, Tables.E1, Tables.E0;
  }

  lemma SameCopyTransitive(t: Tables, u: Tables, v: Tables)
    requires SameCopy(t, u) && SameCopy(u, v)
    ensures SameCopy(t, v)
  {
    hide Tables.C2, Tables.C1, Tables.D1;
  }

  /** A live entry that changed without its copy is a mirror broken. */
  lemma OutOfDate(t: Tables, u: Tables, i: nat, j: nat)
    requires t.Mirror() && SameCopy(t, u) && i < NPTE && j < NPTE
    requires u.E2(i) != t.E2(i) || u.E1(i, j) != t.E1(i, j)
    ensures !u.Mirror()
  {
    hide Tables.C2, Tables.C1, Tables.D1, Tables.E2, Tables.E1;
  }

  /** u is t after an uncorrectable error in page b: what b holds is lost. */
  ghost predicate Broken(t: Tables, u: Tables, b: nat) {
    && u.root == t.root && u.l2 == t.l2 && u.l1 == t.l1 && u.role == t.role
    && (forall q :: q in t.mem && q != b ==> q in u.mem && u.mem[q] == t.mem[q])
    && (forall q :: q in u.mem && q != b ==> q in t.mem)
  }

  lemma RolesReadable(t: Tables)
    requires t.Valid()
    ensures t.Has(t.root, Top) && t.Has(t.l2, Copy2) && t.Has(t.l1, Dir)
  {
  }

  lemma ReplacedTop(t: Tables, u: Tables, p: nat)
    requires t.Valid() && IsPage(p) && p !in t.role && u.role == (t.role - {t.root})[p := Top]
    requires p in u.mem && t.l2 in t.mem && u.mem[p] == t.mem[t.l2] && u.l2 == t.l2 && u.l1 == t.l1
    requires forall q :: q in t.mem && q != t.root && q != p ==> q in u.mem && u.mem[q] == t.mem[q]
    requires forall q :: q in u.mem && q != t.root && q != p ==> q in t.mem
    ensures Replaced(t, u, t.root, p, Top)
    ensures forall q: nat, k: nat {:trigger u.E(q, k)} :: q != t.root ==>
              u.E(q, k) == if q == p then t.E(t.l2, k) else t.E(q, k)
  {
  }

  /** PTDUP's pages read as before the error. */
  lemma CopyRead(t: Tables, u: Tables, b: nat, p: nat, k: nat)
    requires t.Valid() && b != t.l2 && b != t.l1 && p !in t.role && u.l2 == t.l2 && u.l1 == t.l1
    requires forall q :: q in t.mem && q != b && q != p ==> q in u.mem && u.mem[q] == t.mem[q]
    ensures u.C2(k) == t.C2(k) && u.D1(k) == t.D1(k)
  {
  }

  lemma MidRole(t: Tables, i: nat)
    requires t.Valid() && i < NPTE && V(t.E2(i))
    ensures t.Has(PaOf(t.E2(i)), Mid(i))
  {
    hide PaOf, Pde, Tables.E;
  }

  lemma FoundMid(t: Tables, i: nat, k: nat)
    requires t.Valid() && t.Mirror() && i < NPTE && k <= NPTE && V(t.E2(i))
    requires forall m :: 0 <= m < k ==> PaOf(t.E2(i)) != PaOf(t.C2(m))
    requires k < NPTE ==> PaOf(t.E2(i)) == PaOf(t.C2(k))
    ensures k == i && t.D1(i) != 0 && t.Has(t.D1(i), Copy1(i))
  {
    hide Tables.E, Pde, PaOf, Tables.E1, Tables.C1;
    PdeNonZero();
    assert t.C2(i) == t.E2(i);
    if k < i {
      OneMid(t, i, k);
    }
  }

  lemma ReplacedMid(t: Tables, u: Tables, i: nat, p: nat)
    requires t.Valid() && t.Mirror() && i < NPTE && V(t.E2(i)) && IsPage(p) && p !in t.role
    requires u.role == (t.role - {PaOf(t.E2(i))})[p := Mid(i)] && u.l2 == t.l2 && u.l1 == t.l1 && u.root == t.root
    requires t.D1(i) in t.mem && t.root in t.mem && t.l2 in t.mem
    requires p in u.mem && u.mem[p] == t.mem[t.D1(i)]
    requires t.root in u.mem && u.mem[t.root] == t.mem[t.root][i := Pde(p)]
    requires t.l2 in u.mem && u.mem[t.l2] == t.mem[t.l2][i := Pde(p)]
    requires forall q :: q in t.mem && q != PaOf(t.E2(i)) && q != p && q != t.root && q != t.l2 ==>
               q in u.mem && u.mem[q] == t.mem[q]
    requires forall q :: q in u.mem && q != PaOf(t.E2(i)) && q != p ==> q in t.mem
    ensures Replaced(t, u, PaOf(t.E2(i)), p, Mid(i))
    ensures forall q: nat, k: nat {:trigger u.E(q, k)} :: q != PaOf(t.E2(i)) ==>
              u.E(q, k) == if q == p then t.E(t.D1(i), k)
                           else if (q == t.root || q == t.l2) && k == i then Pde(p) else t.E(q, k)
  {
    hide PaOf, Pde;
    PdeNonZero();
  }

  /** The address the table behind entry j of L1 table i starts at. */
  function RegionVa(i: nat, j: nat): nat { i * 0x4000_0000 + j * 0x20_0000 }

  /** (uint64)((i << 30) | (j << 21)) with int i and j: the sum wraps in 32 bits and is sign-extended. */
  function ShiftVa(i: nat, j: nat): nat {
    var x := RegionVa(i, j) % 0x1_0000_0000;
    if x < 0x8000_0000 then x else PtRecords.W - 0x1_0000_0000 + x
  }

  /**
   The address computed is right just for the first two L1 tables. Another one that is not
   sign-extended gets that of the table four, eight and so on before it.
   */
  lemma ShiftExact(i: nat, j: nat)
    requires i < NPTE && j < NPTE
    ensures ShiftVa(i, j) == RegionVa(i, j) <==> i <= 1
    ensures i % 4 <= 1 ==> ShiftVa(i, j) == RegionVa(i % 4, j)
    ensures i % 4 >= 2 ==> ShiftVa(i, j) >= PtRecords.W - 0x8000_0000
    ensures RegionVa(i, j) % PtRecords.REGION == 0 && ShiftVa(i, j) % PtRecords.REGION == 0
  {
    var q, r := i / 4, i % 4;
    ShiftLow(q, r, j);
    RegionBounds(r, j);
    RegionBounds(i, j);
    hide RegionVa;
    assert PtRecords.W - 0x1_0000_0000 == 0x7FF_FFFF_F800 * PtRecords.REGION;
  }

  lemma ShiftLow(q: nat, r: nat, j: nat)
    requires r < 4 && j < NPTE
    ensures RegionVa(4 * q + r, j) % 0x1_0000_0000 == RegionVa(r, j)
    ensures RegionVa(r, j) < 0x8000_0000 <==> r <= 1
    ensures q > 0 ==> RegionVa(4 * q + r, j) >= 0x1_0000_0000
  {
    assert RegionVa(4 * q + r, j) == q * 0x1_0000_0000 + RegionVa(r, j);
    assert RegionVa(r, j) < 0x1_0000_0000;
  }

  lemma RegionBounds(i: nat, j: nat)
    requires i < NPTE && j < NPTE
    ensures RegionVa(i, j) % PtRecords.REGION == 0 && RegionVa(i, j) < 0x80_0000_0000
  {
    assert RegionVa(i, j) == (i * 512 + j) * PtRecords.REGION;
  }

  /** va lies in the table behind entry j of L1 table i, and no record covers its page. */
  ghost predicate Lost(ptds: seq<nat>, pted: seq<nat>, i: nat, j: nat, va: nat) {
    PX(2, va) == i && PX(1, va) == j && !PtRebuild.Recorded(ptds, pted, RegionVa(i, j), PX(0, va))
  }

  /** The L0 table behind entry j of L1 table i. */
  function LowTable(t: Tables, i: nat, j: nat): Page { seq(NPTE, k requires 0 <= k < NPTE => t.E0(i, j, k)) }

  /** u has the leaves of t outside the table behind entry j of L1 table i. */
  ghost predicate LowReplaced(t: Tables, u: Tables, i: nat, j: nat) {
    forall l, m, k {:trigger u.E0(l, m, k)} ::
      0 <= l < NPTE && 0 <= m < NPTE && 0 <= k < NPTE && (l != i || m != j) ==> u.E0(l, m, k) == t.E0(l, m, k)
  }

  lemma LowRebuilt(t: Tables, u: Tables, i: nat, j: nat, page: Page)
    requires i < NPTE && j < NPTE
    requires forall l, m, n {:trigger u.E0(l, m, n)} :: 0 <= l < NPTE && 0 <= m < NPTE && 0 <= n < NPTE ==>
               u.E0(l, m, n) == if l == i && m == j then page[n] else t.E0(l, m, n)
    ensures LowReplaced(t, u, i, j) && LowTable(u, i, j) == page
  {
    hide Tables.E0;
  }

  /** No record is for an address as high as a sign-extended shift. */
  lemma NothingThere(ptds: seq<nat>, pted: seq<nat>, i: nat, j: nat, page: Page)
    requires i < NPTE && j < NPTE && i % 4 >= 2 && PtRebuild.Given(ptds, pted, ShiftVa(i, j), page)
    requires Words(ptds) && Words(pted)
    ensures page == ZeroPage()
  {
    ShiftExact(i, j);
    var sva := ShiftVa(i, j);
    hide ShiftVa;
    forall e: nat, k: nat | e < PtRecords.W
      ensures !PtRebuild.Placed(e, sva, k) && !PtRebuild.PageAt(e, sva, k)
    {
      RecordLow(e);
      hide PtRecords.VaOf, PX;
    }
    hide PtRebuild.Placed, PtRebuild.PageAt;
    forall k | 0 <= k < NPTE
      ensures page[k] == 0
    {
    }
  }

  /** Entries of a list are 64-bit words. */
  ghost predicate Words(s: seq<nat>) { forall k :: 0 <= k < |s| ==> s[k] < PtRecords.W }

  lemma RecordLow(e: nat)
    requires e < PtRecords.W
    ensures PtRecords.VaOf(e) < PtRecords.LIMIT
  {
  }

  lemma LowRole(t: Tables, i: nat, j: nat)
    requires t.Valid() && i < NPTE && j < NPTE && V(t.E1(i, j))
    ensures t.Has(PaOf(t.E1(i, j)), Low(i, j))
  {
    hide PaOf, Pde, Tables.E;
  }

  lemma KeptEntry(t: Tables, u: Tables, b: nat, p: nat, q: nat, k: nat)
    requires q in t.mem && q != b && q != p && q in u.mem && u.mem[q] == t.mem[q]
    ensures u.E(q, k) == t.E(q, k)
  {
  }

  /** PTDUP's L1 copies read as before the error. */
  lemma CopiesKept(t: Tables, u: Tables, i: nat, j: nat, p: nat)
    requires t.Valid() && i < NPTE && j < NPTE && V(t.E1(i, j)) && p !in t.role && u.l1 == t.l1
    requires forall q :: q in t.mem && q != PaOf(t.E1(i, j)) && q != p ==> q in u.mem && u.mem[q] == t.mem[q]
    ensures forall l {:trigger u.D1(l)} :: 0 <= l < NPTE ==> u.D1(l) == t.D1(l)
    ensures forall l, m {:trigger u.C1(l, m)} :: 0 <= l < NPTE && 0 <= m < NPTE ==> u.C1(l, m) == t.C1(l, m)
  {
    LowRole(t, i, j);
    hide PaOf, Pde, Tables.E1, Tables.E2;
  }

  /** What FindLow finds is the broken table's place. */
  lemma FoundLow(t: Tables, u: Tables, i: nat, j: nat, p: nat, l: nat, m: nat)
    requires t.Valid() && t.Mirror() && i < NPTE && j < NPTE && V(t.E1(i, j)) && p !in t.role && u.l1 == t.l1
    requires forall q :: q in t.mem && q != PaOf(t.E1(i, j)) && q != p ==> q in u.mem && u.mem[q] == t.mem[q]
    requires l <= NPTE && (l < NPTE ==> m < NPTE && u.D1(l) != 0 && PaOf(t.E1(i, j)) == PaOf(u.C1(l, m)))
    requires l == NPTE ==> forall l, m :: 0 <= l < NPTE && 0 <= m < NPTE && u.D1(l) != 0 ==>
               PaOf(t.E1(i, j)) != PaOf(u.C1(l, m))
    ensures l == i && m == j && t.Has(t.D1(i), Copy1(i)) && t.Has(PaOf(t.E2(i)), Mid(i)) && V(t.E2(i))
  {
    CopiesKept(t, u, i, j, p);
    EmptyEntry(t, i, j);
    MidOfLow(t, i, j);
    hide PaOf, Pde, Tables.E, Tables.C2;
    assert u.C1(i, j) == t.E1(i, j) && u.D1(i) != 0;
    assert l < NPTE ==> u.C1(l, m) == t.E1(l, m);
    hide Tables.Valid, Tables.Mirror, Tables.E1, Tables.C1, Tables.D1;
    if l < NPTE {
      OneLow(t, i, j, l, m);
    }
  }

  lemma MidOfLow(t: Tables, i: nat, j: nat)
    requires t.Valid() && t.Mirror() && i < NPTE && j < NPTE && V(t.E1(i, j))
    ensures V(t.E2(i)) && t.D1(i) != 0 && t.Has(PaOf(t.E2(i)), Mid(i)) && t.Has(t.D1(i), Copy1(i))
  {
    hide PaOf, Pde, Tables.E;
  }

  lemma ReplacedLow(t: Tables, u: Tables, i: nat, j: nat, p: nat, page: Page)
    requires i < NPTE && j < NPTE && IsPage(p) && p !in t.role && t.Has(PaOf(t.E1(i, j)), Low(i, j))
    requires t.Has(PaOf(t.E2(i)), Mid(i)) && t.Has(t.D1(i), Copy1(i))
    requires u.role == (t.role - {PaOf(t.E1(i, j))})[p := Low(i, j)] && u.l2 == t.l2 && u.l1 == t.l1
    requires p in u.mem && u.mem[p] == page
    requires var a := PaOf(t.E2(i)); a in u.mem && u.mem[a] == t.mem[a][j := Pde(p)]
    requires var d := t.D1(i); d in u.mem && u.mem[d] == t.mem[d][j := Pde(p)]
    requires forall q :: q in t.mem && q != PaOf(t.E1(i, j)) && q != p && q != PaOf(t.E2(i)) && q != t.D1(i) ==>
               q in u.mem && u.mem[q] == t.mem[q]
    requires forall q :: q in u.mem && q != PaOf(t.E1(i, j)) && q != p ==> q in t.mem
    ensures Replaced(t, u, PaOf(t.E1(i, j)), p, Low(i, j))
    ensures forall q: nat, k: nat {:trigger u.E(q, k)} :: q != PaOf(t.E1(i, j)) ==>
              u.E(q, k) == if q == p then (if k < NPTE then page[k] else 0)
                           else if (q == PaOf(t.E2(i)) || q == t.D1(i)) && k == j then Pde(p) else t.E(q, k)
  {
    hide PaOf, Pde, Tables.E1, Tables.E2, Tables.D1;
  }

  /** Entries alike translate alike. */
  lemma AlikeSame(x: nat, y: nat)
    requires PtRebuild.Alike(x, y)
    ensures PaOf(x) == PaOf(y) && V(x) == V(y) && U(x) == U(y)
  {
    FlagBits(x);
    FlagBits(y);
    hide V, U;
  }

  /** V and U are among the low five bits. */
  lemma FlagBits(x: nat)
    ensures (U(x) <==> x % 32 / 16 == 1) && (V(x) <==> x % 32 % 2 == 1)
  {
    var q, r := x / 32, x % 32;
    assert x == 2 * q * 16 + r / 16 * 16 + r % 16;
    PtRecords.FieldAt(2 * q, r / 16, r % 16, 16);
    assert x == 2 * (16 * q) + r;
  }

  /**
   After the recovery of an L0 table whose records fit and agree, no address translates to a
   wrong page; pages that some record covers translate as before.
   */
  lemma TranslationAfterL0(t: Tables, u: Tables, i: nat, j: nat, ptds: seq<nat>, pted: seq<nat>, va: nat)
    requires i <= 1 && j < NPTE && LowReplaced(t, u, i, j)
    requires PtRebuild.Given(ptds, pted, ShiftVa(i, j), LowTable(u, i, j))
    requires PtRebuild.Fits(ptds, RegionVa(i, j)) && PtRebuild.Agree(ptds, pted, RegionVa(i, j), LowTable(t, i, j))
    ensures u.Translate(va) == if Lost(ptds, pted, i, j, va) then 0 else t.Translate(va)
  {
    ShiftExact(i, j);
    PtRebuild.RebuiltAlike(ptds, pted, RegionVa(i, j), LowTable(u, i, j), LowTable(t, i, j));
    hide PaOf, V, U, Tables.E0, PtRebuild.Given, PtRebuild.Fits, PtRebuild.Agree, PtRebuild.Recorded, PtRebuild.Alike;
    hide PtRebuild.Dirty, ShiftVa, RegionVa, PX;
    ZeroInvalid();
    if PX(2, va) == i && PX(1, va) == j {
      var k := PX(0, va);
      assert u.Leaf(va) == LowTable(u, i, j)[k] && t.Leaf(va) == LowTable(t, i, j)[k];
      if u.Leaf(va) != 0 {
        AlikeSame(u.Leaf(va), t.Leaf(va));
      }
    } else {
      assert u.Leaf(va) == t.Leaf(va);
    }
  }

  lemma ZeroInvalid()
    ensures !V(0)
  {
  }
}
