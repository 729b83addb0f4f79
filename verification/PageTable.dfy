/**
 Sv39 page tables and their duplicate (PTDUP) as a value. Pages are named by their physical
 address; entries are unsigned 64-bit words. Every page in use has one role.
 */
module PageTable {
  import opened Params

  const NPTE := 512
  const MAXVA := 0x40_0000_0000
  const MAXPA := 0x100_0000_0000_0000

  /** PX */
  function PX(level: nat, va: nat): (i: nat)
    requires level <= 2
    ensures i < NPTE
  {
    va / (if level == 0 then 0x1000 else if level == 1 then 0x20_0000 else 0x4000_0000) % NPTE
  }

  /** PA2PTE */
  function PteOf(pa: nat): nat { pa / PGSIZE * 1024 }

  /** PTE2PA */
  function PaOf(pte: nat): nat { pte / 1024 * PGSIZE }

  /** PTE_V is set. */
  predicate V(pte: nat) { pte % 2 == 1 }

  /** PTE_U is set. */
  predicate U(pte: nat) { pte / 16 % 2 == 1 }

  /** An entry that points to the table at pa. */
  function Pde(pa: nat): nat { PteOf(pa) + 1 }

  predicate IsPage(p: nat) { p % PGSIZE == 0 && 0 < p < MAXPA }

  lemma PdeRoundTrip(p: nat)
    requires IsPage(p)
    ensures PaOf(Pde(p)) == p && V(Pde(p)) && Pde(p) != 0
  {
  }

  type Page = s: seq<nat> | |s| == NPTE witness seq(NPTE, _ => 0)

  function ZeroPage(): Page { seq(NPTE, _ => 0) }

  /** What a page is used for: tables of the three levels, PTDUP's l2 and l1 pages, duplicates of L1 tables. */
  datatype Role = Top | Mid(i: nat) | Low(i: nat, j: nat) | Copy2 | Dir | Copy1(i: nat)

  datatype Tables = Tables(mem: map<nat, Page>, root: nat, l2: nat, l1: nat, role: map<nat, Role>) {
    function E(p: nat, i: nat): nat { if p in mem && i < NPTE then mem[p][i] else 0 }

    /** Entry i of the L2 table. */
    function E2(i: nat): nat { E(root, i) }

    /** Entry j of the L1 table behind entry i. */
    function E1(i: nat, j: nat): nat { if V(E2(i)) then E(PaOf(E2(i)), j) else 0 }

    /** Entry k of the L0 table behind entry j of that L1 table. */
    function E0(i: nat, j: nat, k: nat): nat { if V(E1(i, j)) then E(PaOf(E1(i, j)), k) else 0 }

    /** The duplicate of E2. */
    function C2(i: nat): nat { E(l2, i) }

    /** The duplicate of the L1 table behind entry i; 0 if there is none. */
    function D1(i: nat): nat { E(l1, i) }

    /** The duplicate of E1. */
    function C1(i: nat, j: nat): nat { if D1(i) != 0 then E(D1(i), j) else 0 }

    ghost predicate Has(p: nat, r: Role) { p in role && role[p] == r && p in mem && IsPage(p) }

    /** e is empty or points to the table with role r. */
    ghost predicate Points(e: nat, r: Role) { e == 0 || (Has(PaOf(e), r) && e == Pde(PaOf(e))) }

    ghost predicate Valid() {
      && Has(root, Top) && Has(l2, Copy2) && Has(l1, Dir)
      && (forall i {:trigger E2(i)} :: 0 <= i < NPTE ==> Points(E2(i), Mid(i)))
      && (forall i {:trigger D1(i)} :: 0 <= i < NPTE ==> D1(i) == 0 || Has(D1(i), Copy1(i)))
      && (forall i, j {:trigger E1(i, j)} :: 0 <= i < NPTE && 0 <= j < NPTE ==> Points(E1(i, j), Low(i, j)))
    }

    /** PTDUP's l2 and l1 copies equal the live L2 and L1 tables. */
    ghost predicate Mirror() {
      && (forall i {:trigger C2(i)} {:trigger E2(i)} :: 0 <= i < NPTE ==> C2(i) == E2(i))
      && (forall i {:trigger D1(i)} {:trigger E2(i)} :: 0 <= i < NPTE ==> (D1(i) == 0 <==> E2(i) == 0))
      && (forall i, j {:trigger C1(i, j)} {:trigger E1(i, j)} :: 0 <= i < NPTE && 0 <= j < NPTE ==>
            C1(i, j) == E1(i, j))
    }

    /** The leaf entry for va; 0 if there is none. */
    function Leaf(va: nat): nat { E0(PX(2, va), PX(1, va), PX(0, va)) }

    /** walkaddr */
    function Translate(va: nat): nat {
      if va >= MAXVA || !V(Leaf(va)) || !U(Leaf(va)) then 0 else PaOf(Leaf(va))
    }

    function Set(p: nat, i: nat, x: nat): Tables
      requires p in mem && i < NPTE
    {
      this.(mem := mem[p := mem[p][i := x]])
    }

    function Add(p: nat, c: Page, r: Role): Tables {
      this.(mem := mem[p := c], role := role[p := r])
    }
  }

  /** u is t with entry k of page p set to x. */
  ghost predicate OneSet(t: Tables, u: Tables, p: nat, k: nat, x: nat) {
    && u.root == t.root && u.l2 == t.l2 && u.l1 == t.l1 && u.role == t.role
    && (forall q :: q in t.mem ==> q in u.mem)
    && forall q: nat, l: nat {:trigger u.E(q, l)} :: u.E(q, l) == if q == p && l == k then x else t.E(q, l)
  }

  lemma SetIs(t: Tables, p: nat, k: nat, x: nat)
    requires p in t.mem && k < NPTE
    ensures OneSet(t, t.Set(p, k, x), p, k, x)
  {
  }

  /** u is t with the new page p, filled with c. */
  ghost predicate OneAdded(t: Tables, u: Tables, p: nat, c: Page, r: Role) {
    && u.root == t.root && u.l2 == t.l2 && u.l1 == t.l1 && u.role == t.role[p := r] && p in u.mem
    && (forall q :: q in t.mem ==> q in u.mem)
    && forall q: nat, l: nat {:trigger u.E(q, l)} ::
         u.E(q, l) == if q == p then (if l < NPTE then c[l] else 0) else t.E(q, l)
  }

  lemma AddIs(t: Tables, p: nat, c: Page, r: Role)
    ensures OneAdded(t, t.Add(p, c, r), p, c, r)
  {
  }

  /** The live tables look the same, and so do the copies. */
  ghost predicate SameLive(t: Tables, u: Tables) {
    && (forall i {:trigger u.E2(i)} :: 0 <= i < NPTE ==> u.E2(i) == t.E2(i))
    && (forall i, j {:trigger u.E1(i, j)} :: 0 <= i < NPTE && 0 <= j < NPTE ==> u.E1(i, j) == t.E1(i, j))
    && (forall i, j, k {:trigger u.E0(i, j, k)} :: 0 <= i < NPTE && 0 <= j < NPTE && 0 <= k < NPTE ==>
          u.E0(i, j, k) == t.E0(i, j, k))
  }

  ghost predicate SameCopy(t: Tables, u: Tables) {
    && (forall i {:trigger u.C2(i)} :: 0 <= i < NPTE ==> u.C2(i) == t.C2(i))
    && (forall i {:trigger u.D1(i)} :: 0 <= i < NPTE ==> u.D1(i) == t.D1(i))
    && (forall i, j {:trigger u.C1(i, j)} :: 0 <= i < NPTE && 0 <= j < NPTE ==> u.C1(i, j) == t.C1(i, j))
  }

  /** A fresh zeroed page keeps everything. */
  lemma AddKeeps(t: Tables, u: Tables, p: nat, r: Role)
    requires t.Valid() && IsPage(p) && p !in t.role && OneAdded(t, u, p, ZeroPage(), r)
    ensures SameLive(t, u) && SameCopy(t, u) && u.Valid() && u.Has(p, r)
  {
    hide Tables.E, PaOf, Pde;
    PdeNonZero();
    assert forall q, s :: t.Has(q, s) ==> u.Has(q, s);
  }

  lemma PdeNonZero()
    ensures forall p {:trigger Pde(p)} :: 0 <= p ==> V(Pde(p)) && Pde(p) != 0
    ensures PaOf(0) == 0
  {
    forall p {:trigger Pde(p)} | 0 <= p
      ensures V(Pde(p)) && Pde(p) != 0
    {
      PdeOdd(p);
    }
  }

  lemma PdeOdd(p: nat)
    ensures V(Pde(p)) && Pde(p) != 0
  {
    hide V;
    Odd(p / PGSIZE * 512);
  }

  lemma Odd(m: nat)
    ensures V(2 * m + 1)
  {
  }

  /** Page p is all zero. */
  ghost predicate Blank(t: Tables, p: nat) { forall k {:trigger t.E(p, k)} :: 0 <= k < NPTE ==> t.E(p, k) == 0 }

  /** Two pages with different roles differ. */
  lemma Apart(t: Tables, p: nat, r: Role, q: nat, s: Role)
    requires t.Has(p, r) && t.Has(q, s)
    ensures p == q ==> r == s
  {
  }

  lemma LinkMid(t: Tables, u: Tables, i: nat, p: nat)
    requires t.Valid() && i < NPTE && t.E2(i) == 0 && t.Has(p, Mid(i)) && Blank(t, p) && OneSet(t, u, t.root, i, Pde(p))
    ensures SameCopy(t, u) && SameLow(t, u)
    ensures forall l {:trigger u.E2(l)} :: 0 <= l < NPTE ==> u.E2(l) == if l == i then Pde(p) else t.E2(l)
    ensures forall l, j {:trigger u.E1(l, j)} :: 0 <= l < NPTE && 0 <= j < NPTE ==> u.E1(l, j) == t.E1(l, j)
    ensures u.Valid()
  {
    PdeRoundTrip(p);
    hide Tables.E, PaOf, Pde;
    PdeNonZero();
    assert forall q, s :: t.Has(q, s) ==> u.Has(q, s);
  }

  ghost predicate SameLow(t: Tables, u: Tables) {
    forall i, j, k {:trigger u.E0(i, j, k)} :: 0 <= i < NPTE && 0 <= j < NPTE && 0 <= k < NPTE ==>
        u.E0(i, j, k) == t.E0(i, j, k)
  }

  lemma LinkLow(t: Tables, u: Tables, i: nat, j: nat, q: nat)
    requires t.Valid() && i < NPTE && j < NPTE && V(t.E2(i)) && t.E1(i, j) == 0 && t.Has(q, Low(i, j)) && Blank(t, q)
    requires OneSet(t, u, PaOf(t.E2(i)), j, Pde(q))
    ensures SameCopy(t, u) && SameLow(t, u)
    ensures forall l {:trigger u.E2(l)} :: 0 <= l < NPTE ==> u.E2(l) == t.E2(l)
    ensures forall l, m {:trigger u.E1(l, m)} :: 0 <= l < NPTE && 0 <= m < NPTE ==>
              u.E1(l, m) == if l == i && m == j then Pde(q) else t.E1(l, m)
    ensures u.Valid()
  {
    PdeRoundTrip(q);
    hide Tables.E, PaOf, Pde;
    PdeNonZero();
    assert forall q, s :: t.Has(q, s) ==> u.Has(q, s);
  }

  lemma CopyDir(t: Tables, u: Tables, i: nat, d: nat)
    requires t.Valid() && i < NPTE && t.Has(d, Copy1(i)) && Blank(t, d) && OneSet(t, u, t.l1, i, d) && d != 0
    ensures SameLive(t, u)
    ensures forall l {:trigger u.C2(l)} :: 0 <= l < NPTE ==> u.C2(l) == t.C2(l)
    ensures forall l {:trigger u.D1(l)} :: 0 <= l < NPTE ==> u.D1(l) == if l == i then d else t.D1(l)
    ensures forall l, j {:trigger u.C1(l, j)} :: 0 <= l < NPTE && 0 <= j < NPTE ==>
              u.C1(l, j) == if l == i then 0 else t.C1(l, j)
    ensures u.Valid()
  {
    hide Tables.E, PaOf, Pde;
    PdeNonZero();
    assert forall q, s :: t.Has(q, s) ==> u.Has(q, s);
  }

  lemma CopyTop(t: Tables, u: Tables, i: nat, x: nat)
    requires t.Valid() && i < NPTE && OneSet(t, u, t.l2, i, x)
    ensures SameLive(t, u)
    ensures forall l {:trigger u.C2(l)} :: 0 <= l < NPTE ==> u.C2(l) == if l == i then x else t.C2(l)
    ensures forall l {:trigger u.D1(l)} :: 0 <= l < NPTE ==> u.D1(l) == t.D1(l)
    ensures forall l, j {:trigger u.C1(l, j)} :: 0 <= l < NPTE && 0 <= j < NPTE ==> u.C1(l, j) == t.C1(l, j)
    ensures u.Valid()
  {
    hide Tables.E, PaOf, Pde;
    PdeNonZero();
    assert forall q, s :: t.Has(q, s) ==> u.Has(q, s);
  }

  lemma CopyMid(t: Tables, u: Tables, i: nat, j: nat, x: nat)
    requires t.Valid() && i < NPTE && j < NPTE && t.D1(i) != 0 && OneSet(t, u, t.D1(i), j, x)
    ensures SameLive(t, u)
    ensures forall l {:trigger u.C2(l)} :: 0 <= l < NPTE ==> u.C2(l) == t.C2(l)
    ensures forall l {:trigger u.D1(l)} :: 0 <= l < NPTE ==> u.D1(l) == t.D1(l)
    ensures forall l, m {:trigger u.C1(l, m)} :: 0 <= l < NPTE && 0 <= m < NPTE ==>
              u.C1(l, m) == if l == i && m == j then x else t.C1(l, m)
    ensures u.Valid()
  {
    hide Tables.E, PaOf, Pde;
    PdeNonZero();
    assert forall q, s :: t.Has(q, s) ==> u.Has(q, s);
  }

  /** Storing in an L0 table changes that entry alone. */
  lemma SetLeaf(t: Tables, u: Tables, i: nat, j: nat, k: nat, x: nat)
    requires t.Valid() && i < NPTE && j < NPTE && k < NPTE && V(t.E1(i, j)) && OneSet(t, u, PaOf(t.E1(i, j)), k, x)
    ensures SameCopy(t, u)
    ensures forall l {:trigger u.E2(l)} :: 0 <= l < NPTE ==> u.E2(l) == t.E2(l)
    ensures forall l, m {:trigger u.E1(l, m)} :: 0 <= l < NPTE && 0 <= m < NPTE ==> u.E1(l, m) == t.E1(l, m)
    ensures forall l, m, n {:trigger u.E0(l, m, n)} :: 0 <= l < NPTE && 0 <= m < NPTE && 0 <= n < NPTE ==>
              u.E0(l, m, n) == if l == i && m == j && n == k then x else t.E0(l, m, n)
    ensures u.Valid()
  {
    hide Tables.E, PaOf, Pde;
    PdeNonZero();
    assert forall q, s :: t.Has(q, s) ==> u.Has(q, s);
  }

  // ----- replacing a broken table

  /** u's role map is t's with the fresh page p in place of the page b, and every other page is kept. */
  ghost predicate Replaced(t: Tables, u: Tables, b: nat, p: nat, r: Role) {
    && t.Has(b, r) && IsPage(p) && p !in t.role && u.role == (t.role - {b})[p := r] && p in u.mem
    && (forall q :: q in t.mem && q != b ==> q in u.mem)
    && u.l2 == t.l2 && u.l1 == t.l1
  }

  lemma ReplacedHas(t: Tables, u: Tables, b: nat, p: nat, r: Role)
    requires Replaced(t, u, b, p, r)
    ensures u.Has(p, r) && forall q, s :: t.Has(q, s) && (q != b || s != r) ==> u.Has(q, s)
  {
  }

  /** The L2 table behind p is PTDUP's copy. */
  lemma SwapTop(t: Tables, u: Tables, p: nat)
    requires t.Valid() && t.Mirror() && Replaced(t, u, t.root, p, Top) && u.root == p
    requires forall q: nat, k: nat {:trigger u.E(q, k)} :: q != t.root ==>
               u.E(q, k) == if q == p then t.E(t.l2, k) else t.E(q, k)
    ensures SameLive(t, u) && SameCopy(t, u) && u.Mirror()
    ensures u.Valid()
  {
    ReplacedHas(t, u, t.root, p, Top);
    hide Tables.E, PaOf, Pde;
    PdeNonZero();
  }

  /** The L1 table behind entry i is PTDUP's copy, and both L2 tables point to it. */
  lemma SwapMid(t: Tables, u: Tables, i: nat, p: nat)
    requires t.Valid() && t.Mirror() && i < NPTE && V(t.E2(i)) && Replaced(t, u, PaOf(t.E2(i)), p, Mid(i)) &&
               u.root == t.root
    requires forall q: nat, k: nat {:trigger u.E(q, k)} :: q != PaOf(t.E2(i)) ==>
               u.E(q, k) == if q == p then t.E(t.D1(i), k)
                            else if (q == t.root || q == t.l2) && k == i then Pde(p) else t.E(q, k)
    ensures forall l {:trigger u.E2(l)} :: 0 <= l < NPTE ==> u.E2(l) == if l == i then Pde(p) else t.E2(l)
    ensures forall l, j {:trigger u.E1(l, j)} :: 0 <= l < NPTE && 0 <= j < NPTE ==> u.E1(l, j) == t.E1(l, j)
    ensures SameLow(t, u) && u.Mirror()
    ensures u.Valid()
  {
    hide Tables.E, PaOf, Pde;
    ReplacedHas(t, u, PaOf(t.E2(i)), p, Mid(i));
    PdeRoundTrip(p);
    PdeNonZero();
    hide Replaced;
  }

  /** The L0 table behind entry j of L1 table i has content c, and both L1 tables point to it. */
  lemma SwapLow(t: Tables, u: Tables, i: nat, j: nat, p: nat, c: Page)
    requires t.Valid() && t.Mirror() && i < NPTE && j < NPTE && V(t.E1(i, j)) && u.root == t.root
    requires Replaced(t, u, PaOf(t.E1(i, j)), p, Low(i, j))
    requires forall q: nat, k: nat {:trigger u.E(q, k)} :: q != PaOf(t.E1(i, j)) ==>
               u.E(q, k) == if q == p then (if k < NPTE then c[k] else 0)
                            else if (q == PaOf(t.E2(i)) || q == t.D1(i)) && k == j then Pde(p) else t.E(q, k)
    ensures forall l {:trigger u.E2(l)} :: 0 <= l < NPTE ==> u.E2(l) == t.E2(l)
    ensures forall l, m {:trigger u.E1(l, m)} :: 0 <= l < NPTE && 0 <= m < NPTE ==>
              u.E1(l, m) == if l == i && m == j then Pde(p) else t.E1(l, m)
    ensures forall l, m, n {:trigger u.E0(l, m, n)} :: 0 <= l < NPTE && 0 <= m < NPTE && 0 <= n < NPTE ==>
              u.E0(l, m, n) == if l == i && m == j then c[n] else t.E0(l, m, n)
    ensures u.Mirror()
    ensures u.Valid()
  {
    hide Tables.E, PaOf, Pde;
    ReplacedHas(t, u, PaOf(t.E1(i, j)), p, Low(i, j));
    PdeRoundTrip(p);
    PdeNonZero();
  }

  // ----- finding a table

  /** Only entry i of the L2 table points to the table behind entry i. */
  lemma OneMid(t: Tables, i: nat, k: nat)
    requires t.Valid() && i < NPTE && k < NPTE && V(t.E2(i)) && PaOf(t.E2(k)) == PaOf(t.E2(i))
    ensures k == i
  {
    hide Pde, Tables.E;
    PdeNonZero();
  }

  /** Only entry j of L1 table i points to the table behind it. */
  lemma OneLow(t: Tables, i: nat, j: nat, l: nat, m: nat)
    requires t.Valid() && i < NPTE && j < NPTE && l < NPTE && m < NPTE
    requires V(t.E1(i, j)) && PaOf(t.E1(l, m)) == PaOf(t.E1(i, j))
    ensures l == i && m == j
  {
    hide Pde, Tables.E;
    PdeNonZero();
  }

  /** Whether va has an L0 table. */
  predicate Mapped(t: Tables, va: nat) { V(t.E1(PX(2, va), PX(1, va))) }

  /** An entry without PTE_V is empty. */
  lemma EmptyEntry(t: Tables, i: nat, j: nat)
    requires t.Valid() && i < NPTE && j < NPTE
    ensures !V(t.E2(i)) ==> t.E2(i) == 0 && t.E1(i, j) == 0
    ensures !V(t.E1(i, j)) ==> t.E1(i, j) == 0
    ensures V(t.E2(i)) ==> PaOf(t.E2(i)) in t.mem && PaOf(t.E2(i)) != 0
    ensures V(t.E1(i, j)) ==> PaOf(t.E1(i, j)) in t.mem && PaOf(t.E1(i, j)) != 0
  {
    hide Tables.E, Pde, PaOf;
    PdeNonZero();
  }

  /** u translates as t does. */
  ghost predicate SameLeaves(t: Tables, u: Tables) {
    forall va {:trigger u.Leaf(va)} :: 0 <= va < MAXVA ==> u.Leaf(va) == t.Leaf(va)
  }

  lemma LowGivesLeaves(t: Tables, u: Tables)
    requires SameLow(t, u)
    ensures SameLeaves(t, u)
  {
    hide Tables.E0, PX;
  }

  function PageOf(va: nat): nat { va / PGSIZE * PGSIZE }

  /** Two addresses below MAXVA share a leaf entry exactly when they share a page. */
  lemma PageIndex(a: nat, b: nat)
    requires a < MAXVA && b < MAXVA
    ensures PX(0, a) == PX(0, b) && PX(1, a) == PX(1, b) && PX(2, a) == PX(2, b) <==> PageOf(a) == PageOf(b)
  {
    Split(a);
    Split(b);
  }

  lemma Split(a: nat)
    requires a < MAXVA
    ensures a / PGSIZE == PX(2, a) * 0x4_0000 + PX(1, a) * 512 + PX(0, a)
  {
    assert a / 0x20_0000 == a / PGSIZE / 512 && a / 0x4000_0000 == a / PGSIZE / 0x4_0000;
  }

  /** The leaf that mappages stores: the page at pa, perm, PTE_V. */
  function Mapping(pa: nat, perm: nat): nat { PteOf(pa) + perm + (if V(perm) then 0 else 1) }

  /** The leaf for v once mappages has mapped the pages of [from, end) of t. */
  function Ranged(t: Tables, from: nat, end: nat, pa: nat, perm: nat, v: nat): nat {
    if from <= PageOf(v) < end then Mapping(pa + (PageOf(v) - from), perm) else t.Leaf(v)
  }

  /** The leaves of the page at a are x; all others are as in t. */
  ghost predicate LeafSet(t: Tables, u: Tables, a: nat, x: nat) {
    forall v {:trigger u.Leaf(v)} :: 0 <= v < MAXVA ==> u.Leaf(v) == if PageOf(v) == PageOf(a) then x else t.Leaf(v)
  }

  lemma StoreLeaf(t: Tables, u: Tables, a: nat, x: nat)
    requires t.Valid() && a < MAXVA && Mapped(t, a) && OneSet(t, u, PaOf(t.E1(PX(2, a), PX(1, a))), PX(0, a), x)
    ensures u.Valid() && LeafSet(t, u, a, x) && (t.Mirror() ==> u.Mirror())
  {
    hide Tables.E, Tables.Valid, Pde, PaOf, PX, PageOf;
    SetLeaf(t, u, PX(2, a), PX(1, a), PX(0, a), x);
    hide Tables.E2, Tables.E1, Tables.E0, Tables.C2, Tables.C1, Tables.D1;
    forall v | 0 <= v < MAXVA
      ensures u.Leaf(v) == if PageOf(v) == PageOf(a) then x else t.Leaf(v)
    {
      PageIndex(a, v);
    }
  }

  lemma LeafRead(t: Tables, a: nat)
    requires a < MAXVA && Mapped(t, a)
    ensures t.E(PaOf(t.E1(PX(2, a), PX(1, a))), PX(0, a)) == t.Leaf(a)
  {
  }

  /** u is t after mappages mapped the pages of [from, end), none of which was mapped. */
  ghost predicate RangeMapped(t: Tables, u: Tables, from: nat, end: nat, pa: nat, perm: nat) {
    && (forall v {:trigger u.Leaf(v)} :: 0 <= v < MAXVA ==> u.Leaf(v) == Ranged(t, from, end, pa, perm, v))
    && (forall v {:trigger t.Leaf(v)} :: from <= v < end && v % PGSIZE == 0 ==> !V(t.Leaf(v)))
    && (from < end ==> end <= MAXVA)
  }

  /** The leaf e is valid, has just the other flag bits of perm, and names the page of pa. */
  predicate Stores(e: nat, pa: nat, perm: nat) {
    e % 2 == 1 && e % 1024 / 2 == perm / 2 && e / 1024 == pa / PGSIZE
  }

  /** What mappages leaves for each address of the range, bit by bit. */
  lemma RangeBits(t: Tables, u: Tables, from: nat, end: nat, pa: nat, perm: nat)
    requires RangeMapped(t, u, from, end, pa, perm) && perm < 1024
    ensures forall v: nat {:trigger u.Leaf(v)} :: v < MAXVA && from <= v - v % PGSIZE < end ==>
              Stores(u.Leaf(v), pa + (v - v % PGSIZE - from), perm)
    ensures forall v: nat {:trigger u.Leaf(v)} :: v < MAXVA && !(from <= v - v % PGSIZE < end) ==>
              u.Leaf(v) == t.Leaf(v)
  {
    hide Tables.Leaf;
    forall v: nat | v < MAXVA
      ensures from <= v - v % PGSIZE < end ==> Stores(u.Leaf(v), pa + (v - v % PGSIZE - from), perm)
      ensures !(from <= v - v % PGSIZE < end) ==> u.Leaf(v) == t.Leaf(v)
    {
      assert u.Leaf(v) == Ranged(t, from, end, pa, perm, v);
      assert PageOf(v) == v - v % PGSIZE;
      if from <= PageOf(v) < end { MappingBits(pa + (PageOf(v) - from), perm); }
    }
  }

  lemma MappingBits(pa: nat, perm: nat)
    requires perm < 1024
    ensures Stores(Mapping(pa, perm), pa, perm)
  {
    var low := perm + if V(perm) then 0 else 1;
    Kilo(pa / PGSIZE, low);
    Even(512 * (pa / PGSIZE), low);
  }

  lemma Kilo(q: nat, r: nat)
    requires r < 1024
    ensures (q * 1024 + r) / 1024 == q && (q * 1024 + r) % 1024 == r
  {
  }

  /** The hardware's way to a valid leaf: nine bits of the address at each level, by physical page numbers. */
  ghost predicate Walked(t: Tables, va: nat, e: nat) {
    && t.root in t.mem
    && var e2 := t.mem[t.root][va / 0x4000_0000 % 512];
    && e2 % 2 == 1 && e2 / 1024 * 0x1000 in t.mem
    && var e1 := t.mem[e2 / 1024 * 0x1000][va / 0x20_0000 % 512];
    && e1 % 2 == 1 && e1 / 1024 * 0x1000 in t.mem
    && e == t.mem[e1 / 1024 * 0x1000][va / 0x1000 % 512]
  }

  lemma WalkExact(t: Tables, va: nat)
    requires t.Valid() && va < MAXVA
    ensures t.Leaf(va) % 2 == 1 ==> Walked(t, va, t.Leaf(va))
    ensures forall e: nat :: Walked(t, va, e) && e % 2 == 1 ==> t.Leaf(va) == e
  {
    hide Tables.Points, Pde;
    var i, j := PX(2, va), PX(1, va);
    EmptyEntry(t, i, j);
  }

  /** walkaddr gives the page of a valid user leaf, and 0 for every other address. */
  lemma WalkAddrExact(t: Tables, va: nat)
    requires t.Valid()
    ensures va >= MAXVA ==> t.Translate(va) == 0
    ensures forall e: nat :: va < MAXVA && Walked(t, va, e) && e % 2 == 1 && e / 16 % 2 == 1 ==>
              t.Translate(va) == e / 1024 * 0x1000
    ensures t.Translate(va) != 0 ==>
              exists e: nat :: Walked(t, va, e) && e % 2 == 1 && e / 16 % 2 == 1 && t.Translate(va) == e / 1024 * 0x1000
  {
    if va < MAXVA {
      WalkExact(t, va);
      hide Walked;
      assert t.Translate(va) != 0 ==> Walked(t, va, t.Leaf(va));
    }
  }

  /** After mappages with PTE_U walkaddr gives the pages of the range in order, without it none of them. */
  lemma MapThenWalk(t: Tables, u: Tables, from: nat, end: nat, pa: nat, perm: nat, v: nat)
    requires RangeMapped(t, u, from, end, pa, perm) && perm < 1024 && pa % PGSIZE == 0 && from % PGSIZE == 0
    requires from <= v - v % PGSIZE < end
    ensures u.Translate(v) == if perm / 16 % 2 == 1 then pa + (v - v % PGSIZE - from) else 0
  {
    hide Tables.Leaf, Tables.Translate, Stores;
    RangeBits(t, u, from, end, pa, perm);
    assert v < MAXVA && Stores(u.Leaf(v), pa + (v - v % PGSIZE - from), perm);
    StoredWalk(u, v, pa + (v - v % PGSIZE - from), perm);
  }

  lemma StoredWalk(t: Tables, v: nat, pa: nat, perm: nat)
    requires v < MAXVA && Stores(t.Leaf(v), pa, perm) && perm < 1024 && pa % PGSIZE == 0
    ensures t.Translate(v) == if perm / 16 % 2 == 1 then pa else 0
  {
    hide Tables.Leaf;
    FlagBits(t.Leaf(v), perm);
  }

  lemma FlagBits(e: nat, perm: nat)
    requires e % 1024 / 2 == perm / 2 && perm < 1024
    ensures e / 16 % 2 == perm / 16 % 2
  {
    var h, m := e / 1024, perm / 2 / 8;
    Sixteenth(e, 64 * h + m);
    Sixteenth(perm, m);
    Even(32 * h, m);
  }

  lemma Sixteenth(x: nat, k: nat)
    requires 16 * k <= x < 16 * k + 16
    ensures x / 16 == k
  {
  }

  lemma Even(h: nat, m: nat)
    ensures (2 * h + m) % 2 == m % 2
  {
  }

  lemma RangeStart(t: Tables, from: nat, pa: nat, perm: nat)
    ensures RangeMapped(t, t, from, from, pa, perm)
  {
  }

  lemma RangeSame(t: Tables, u: Tables, w: Tables, from: nat, end: nat, pa: nat, perm: nat)
    requires RangeMapped(t, u, from, end, pa, perm) && SameLeaves(u, w)
    ensures RangeMapped(t, w, from, end, pa, perm)
  {
    hide Tables.Leaf;
  }

  lemma RangeStep(t: Tables, u: Tables, w: Tables, from: nat, a: nat, pa: nat, perm: nat)
    requires RangeMapped(t, u, from, a, pa, perm) && from <= a < MAXVA && from % PGSIZE == 0 && a % PGSIZE == 0
    requires !V(u.Leaf(a)) && LeafSet(u, w, a, Mapping(pa + (a - from), perm))
    ensures RangeMapped(t, w, from, a + PGSIZE, pa, perm)
  {
    hide Tables.Leaf, Mapping, V;
  }
}
