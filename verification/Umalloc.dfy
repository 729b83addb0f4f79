/**
 The allocator of user/umalloc.c. Addresses count bytes; a block is a header of HDR bytes
 followed by its payload, and sizes count headers. `free` and `live` are the headers of the
 free and the allocated blocks, `got` the bytes obtained from sbrk.
 */
module Umalloc {
  const HDR := 16
  const INT32 := 0x8000_0000
  const UINT32 := 0x1_0000_0000
  const MINUNITS := 4096

  datatype Header = Header(ptr: nat, size: nat)

  /** Units for n bytes of payload: the payload rounded up, and the header. */
  function Units(n: nat): nat { (n + HDR - 1) / HDR + 1 }

  /** No fewer units hold the header and n bytes. */
  lemma UnitsExact(n: nat)
    ensures 16 * (Units(n) - 1) >= n && (n > 0 ==> 16 * (Units(n) - 2) < n) && (n == 0 ==> Units(n) == 1)
  {
  }

  /** What morecore asks for. */
  function Asked(nu: nat): nat { if nu < MINUNITS then MINUNITS else nu }

  /** At least 4096 units, and no more than needed beyond. */
  lemma AskedExact(nu: nat)
    ensures Asked(nu) >= nu && Asked(nu) >= 4096 && (Asked(nu) == nu || Asked(nu) == 4096)
  {
  }

  /** An unsigned value passed as a C int. */
  function AsInt(x: nat): int {
    var y := x % UINT32;
    if y < INT32 then y else y - UINT32
  }

  const MAXREQUEST := INT32 - 2 * HDR

  /** What sbrk is asked for, to get nu units. */
  function Argument(nu: nat): int { AsInt(Asked(nu) * HDR) }

  /**
   sbrk takes an int: it is asked for the number of bytes needed only up to MAXREQUEST bytes.
   Beyond, it is asked to shrink the process, or for one header at most.
   */
  lemma SbrkExact(n: nat)
    requires n < UINT32
    ensures Argument(Units(n)) == Asked(Units(n)) * HDR <==> n <= MAXREQUEST
    ensures n > MAXREQUEST ==> Argument(Units(n)) <= HDR
  {
    var k := Asked(Units(n)) * HDR;
    assert k < 2 * UINT32;
    if n > MAXREQUEST {
      assert Units(n) >= INT32 / HDR;
    }
  }

  /** b follows a in the address-sorted ring over `free`; only the last block wraps around to base. */
  ghost predicate Next(free: set<nat>, base: nat, a: nat, b: nat) {
    && b in free
    && if a < b then forall c :: c in free ==> c <= a || b <= c
       else b == base && forall c :: c in free ==> c <= a
  }

  datatype Heap = Heap(base: nat, mem: map<nat, Header>, free: set<nat>, live: map<nat, nat>, got: set<int>, brk: nat) {
    function Size(a: nat): nat { if a in mem then mem[a].size else 0 }

    function Ptr(a: nat): nat { if a in mem then mem[a].ptr else 0 }

    function End(a: nat): nat { a + HDR * Size(a) }

    ghost predicate Sized() {
      && base in free && base < brk
      && forall a :: a in free ==> a in mem && base <= a && End(a) <= brk && (Size(a) == 0 <==> a == base)
    }

    ghost predicate Sorted() { forall a, b :: a in free && b in free && a < b ==> End(a) <= b }

    ghost predicate Links() { forall a {:trigger Ptr(a)} :: a in free ==> Next(free, base, a, Ptr(a)) }

    /** The free list is one ring in address order, through base, over disjoint blocks. */
    ghost predicate Ring() { Sized() && Sorted() && Links() }

    /** No two free blocks touch. */
    ghost predicate Apart() { forall a, b :: a in free && b in free && a < b ==> End(a) < b }

    ghost predicate LiveSized() {
      forall a :: a in live ==> a in mem && Size(a) == live[a] > 0 && base < a && End(a) <= brk
    }

    ghost predicate FreeApart() { forall a, b :: a in live && b in free ==> End(a) <= b || End(b) <= a }

    ghost predicate LiveSorted() { forall a, b :: a in live && b in live && a < b ==> End(a) <= b }

    /** Allocated blocks keep their headers and lie apart from the free blocks and each other. */
    ghost predicate LiveApart() { LiveSized() && FreeApart() && LiveSorted() }

    ghost predicate Block(a: nat) { a in free || a in live }

    /** Byte u lies in some block. */
    ghost predicate Held(u: int) { exists a: nat :: Block(a) && a <= u < End(a) }

    /** Every byte from sbrk is in a block, and blocks hold no other byte. */
    ghost predicate Conserved() { forall u :: u in got <==> Held(u) }

    ghost predicate Linked() { Ring() && LiveApart() && Conserved() }

    ghost predicate Valid() { Linked() && Apart() }

    /** bp leaves the allocated blocks and is linked in behind p. */
    function Insert(p: nat, bp: nat): Heap
      requires p in mem && bp in mem
    {
      this.(mem := mem[bp := Header(mem[p].ptr, mem[bp].size)][p := Header(bp, mem[p].size)],
            free := free + {bp}, live := live - {bp})
    }

    /** p swallows the block it points to. */
    function Merge(p: nat): Heap
      requires p in mem && mem[p].ptr in mem
    {
      var n := mem[p].ptr;
      this.(mem := mem[p := Header(mem[n].ptr, mem[p].size + mem[n].size)], free := free - {n})
    }

    /** The block behind prev becomes allocated. */
    function Take(prev: nat): Heap
      requires prev in mem && mem[prev].ptr in mem
    {
      var p := mem[prev].ptr;
      this.(mem := mem[prev := Header(mem[p].ptr, mem[prev].size)], free := free - {p}, live := live[p := mem[p].size])
    }

    /** The last n units of p become allocated. */
    function Split(p: nat, n: nat): Heap
      requires p in mem && n < mem[p].size
    {
      var q := p + HDR * (mem[p].size - n);
      var stale := if q in mem then mem[q].ptr else 0;
      this.(mem := mem[p := Header(mem[p].ptr, mem[p].size - n)][q := Header(stale, n)], live := live[q := n])
    }

    /** nu units at s, fresh from sbrk, as an allocated block. */
    function Grow(s: nat, nu: nat): Heap {
      this.(mem := mem[s := Header(0, nu)], live := live[s := nu], brk := s + HDR * nu,
            got := got + Range(s, HDR * nu))
    }
  }

  /** Free and allocated blocks partition the bytes from sbrk: no byte lies in two of them. */
  lemma OneBlock(h: Heap, u: int, a: nat, b: nat)
    requires h.Valid() && h.Block(a) && h.Block(b) && a <= u < h.End(a) && b <= u < h.End(b)
    ensures a == b && u in h.got
  {
    hide Heap.Size, Heap.Links;
    assert h.Held(u);
  }

  function Range(s: nat, n: nat): set<int> { set u | s <= u < s + n && Within(s, n, u) }

  predicate Within(s: nat, n: nat, u: int) { s <= u < s + n }

  /** p is the free block after which bp belongs. */
  ghost predicate Before(h: Heap, p: nat, bp: nat) {
    p in h.free && p < bp && forall c :: c in h.free && c < bp ==> c <= p
  }

  /** The same blocks with the same sizes. */
  ghost predicate SameSizes(h: Heap, g: Heap) {
    && g.base == h.base && g.brk == h.brk && g.got == h.got
    && (forall a: nat {:trigger g.Size(a)} :: g.Size(a) == h.Size(a))
    && (forall a: nat :: a in h.mem ==> a in g.mem)
  }

  lemma Inserted(h: Heap, p: nat, bp: nat)
    requires h.Linked() && bp in h.live && Before(h, p, bp)
    ensures p in h.mem && bp in h.mem && h.Insert(p, bp).Linked()
  {
    hide Heap.Insert, Heap.Size, Heap.Links, Heap.Held, Heap.LiveApart, Heap.Sized, Heap.Sorted;
    InsertedApart(h, p, bp);
    SameBlocks(h, h.Insert(p, bp));
    InsertedLinks(h, p, bp);
  }

  lemma InsertedApart(h: Heap, p: nat, bp: nat)
    requires h.Linked() && bp in h.live && Before(h, p, bp)
    ensures p in h.mem && bp in h.mem && bp !in h.free
    ensures var g := h.Insert(p, bp);
            && g.Sized() && g.Sorted() && g.LiveApart() && SameSizes(h, g)
            && g.free == h.free + {bp} && g.live == h.live - {bp}
  {
    var g := h.Insert(p, bp);
    assert SameSizes(h, g) && g.free == h.free + {bp} && g.live == h.live - {bp};
    hide Heap.Insert, Heap.Size, Heap.Links, Heap.Conserved, Heap.LiveSorted, Heap.FreeApart, Heap.Sorted, Before;
    LiveStaysApart(h, g, bp);
    StaysSorted(h, g, p, bp);
  }

  lemma StaysSorted(h: Heap, g: Heap, p: nat, bp: nat)
    requires h.Sorted() && Before(h, p, bp)
    requires SameSizes(h, g) && g.free == h.free + {bp}
    requires forall a :: a in h.free ==> h.End(bp) <= a || h.End(a) <= bp
    ensures g.Sorted()
  {
    hide Heap.Size;
  }

  lemma LiveStaysApart(h: Heap, g: Heap, bp: nat)
    requires h.LiveApart() && bp in h.live
    requires SameSizes(h, g) && g.free == h.free + {bp} && g.live == h.live - {bp}
    ensures g.LiveSorted() && g.FreeApart()
    ensures forall a :: a in h.free ==> h.End(bp) <= a || h.End(a) <= bp
  {
    hide Heap.Size;
  }

  lemma InsertedLinks(h: Heap, p: nat, bp: nat)
    requires h.Ring() && p in h.mem && bp in h.mem && bp !in h.free && Before(h, p, bp)
    ensures h.Insert(p, bp).Links()
  {
    var g := h.Insert(p, bp);
    assert forall a: nat :: g.Ptr(a) == if a == p then bp else if a == bp then h.Ptr(p) else h.Ptr(a);
    hide Heap.Insert, Heap.Ptr, Heap.Sorted;
  }

  lemma SameBlocks(h: Heap, g: Heap)
    requires h.Conserved() && SameSizes(h, g)
    requires forall a: nat {:trigger g.Block(a)} {:trigger h.Block(a)} :: h.Block(a) <==> g.Block(a)
    ensures g.Conserved()
  {
    hide Heap.Block, Heap.Size;
    forall u: int
      ensures g.Held(u) <==> h.Held(u)
    {
      if h.Held(u) {
        var a: nat :| h.Block(a) && a <= u < h.End(a);
        assert g.Block(a) && g.Size(a) == h.Size(a);
      }
      if g.Held(u) {
        var a: nat :| g.Block(a) && a <= u < g.End(a);
        assert h.Block(a) && g.Size(a) == h.Size(a);
      }
    }
  }

  lemma Separate(h: Heap, a: nat)
    requires h.Linked() && a in h.free
    ensures a !in h.live
  {
    hide Heap.Size, Heap.Links, Heap.Conserved;
  }

  // ----- coalescing

  /** p grew by the block n that touched it, and n is no block any more. */
  ghost predicate Joined(h: Heap, g: Heap, p: nat, n: nat) {
    && g.base == h.base && g.brk == h.brk && g.got == h.got && g.live == h.live && g.free == h.free - {n}
    && (forall a: nat {:trigger g.Size(a)} :: g.Size(a) == h.Size(a) + if a == p then h.Size(n) else 0)
    && (forall a: nat :: a in h.mem ==> a in g.mem)
  }

  lemma Merged(h: Heap, p: nat)
    requires h.Linked() && p in h.free && p < h.Ptr(p) == h.End(p)
    ensures p in h.mem && h.Ptr(p) in h.mem && h.Merge(p).Linked() && Joined(h, h.Merge(p), p, h.Ptr(p))
  {
    hide Heap.LiveApart, Heap.Held;
    var n := h.Ptr(p);
    var g := h.Merge(p);
    assert Next(h.free, h.base, p, n);
    assert p < n && Joined(h, g, p, n);
    Separate(h, n);
    hide Heap.Merge, Heap.Size, Heap.Links, Heap.Sized, Heap.Sorted, Heap.End;
    MergedSorted(h, g, p, n);
    MergedLive(h, g, p, n);
    MergedLinks(h, p);
    JoinedBlocks(h, g, p, n);
  }

  lemma MergedSorted(h: Heap, g: Heap, p: nat, n: nat)
    requires h.Sized() && h.Sorted() && p in h.free && n in h.free && p < n && h.End(p) == n && Joined(h, g, p, n)
    ensures g.Sized() && g.Sorted()
  {
    hide Heap.Size;
  }

  lemma MergedLive(h: Heap, g: Heap, p: nat, n: nat)
    requires h.Sized() && h.LiveApart() && p in h.free && n in h.free && p < n && h.End(p) == n && Joined(h, g, p, n)
    ensures g.LiveApart()
  {
    hide Heap.Size;
  }

  lemma MergedLinks(h: Heap, p: nat)
    requires h.Ring() && p in h.free && p < h.Ptr(p) == h.End(p)
    ensures p in h.mem && h.Ptr(p) in h.mem && h.Merge(p).Links()
  {
    assert Next(h.free, h.base, p, h.Ptr(p));
    var g := h.Merge(p);
    assert g.free == h.free - {h.Ptr(p)} && forall a: nat :: g.Ptr(a) == if a == p then h.Ptr(h.Ptr(p)) else h.Ptr(a);
    hide Heap.Merge, Heap.Ptr, Heap.Sorted;
  }

  lemma JoinedBlocks(h: Heap, g: Heap, p: nat, n: nat)
    requires h.Conserved() && Joined(h, g, p, n) && p in h.free && n in h.free && p < n && h.End(p) == n && n !in h.live
    ensures g.Conserved()
  {
    hide Heap.Size;
    forall u: int
      ensures g.Held(u) <==> h.Held(u)
    {
      if h.Held(u) {
        var a: nat :| h.Block(a) && a <= u < h.End(a);
        assert g.Block(if a == n then p else a);
      }
      if g.Held(u) {
        var a: nat :| g.Block(a) && a <= u < g.End(a);
        assert h.Block(if a == p && u >= n then n else a);
      }
    }
  }

  // ----- allocation

  /** q joins the allocated blocks, clear of all others. */
  lemma AddedLive(h: Heap, g: Heap, q: nat)
    requires h.LiveSized() && h.LiveSorted() && g.FreeApart()
    requires q in g.mem && g.base < q && g.base == h.base && 0 < g.Size(q) && h.brk <= g.brk && g.End(q) <= g.brk
    requires g.live == h.live[q := g.Size(q)] && q !in h.live
    requires forall a :: a in h.live ==> a in g.mem && g.Size(a) == h.Size(a)
    requires forall a :: a in h.live ==> h.End(a) <= q || g.End(q) <= a
    ensures g.LiveApart()
  {
    hide Heap.Size, Heap.FreeApart;
  }

  /** The block behind prev moved from the free to the allocated blocks. */
  lemma Taken(h: Heap, prev: nat)
    requires h.Valid() && prev in h.free && h.Ptr(prev) != h.base
    ensures prev in h.mem && h.Ptr(prev) in h.mem && h.Take(prev).Valid()
  {
    hide Heap.LiveApart, Heap.Held;
    var p := h.Ptr(prev);
    assert Next(h.free, h.base, prev, p);
    var g := h.Take(prev);
    assert SameSizes(h, g) && g.free == h.free - {p} && g.live == h.live[p := h.Size(p)];
    hide Heap.Take, Heap.Size, Heap.Links;
    TakenLive(h, g, p);
    TakenLinks(h, prev);
    SameBlocks(h, g);
  }

  lemma TakenLive(h: Heap, g: Heap, p: nat)
    requires h.Sized() && h.Sorted() && h.LiveApart() && p in h.free && p != h.base
    requires SameSizes(h, g) && g.free == h.free - {p} && g.live == h.live[p := h.Size(p)]
    ensures g.LiveApart()
  {
    TakenFree(h, g, p);
    hide Heap.Size, Heap.Sorted;
    AddedLive(h, g, p);
  }

  lemma TakenFree(h: Heap, g: Heap, p: nat)
    requires h.Sorted() && h.FreeApart() && p in h.free
    requires SameSizes(h, g) && g.free == h.free - {p} && g.live == h.live[p := h.Size(p)]
    ensures g.FreeApart()
  {
    hide Heap.Size;
  }

  lemma TakenLinks(h: Heap, prev: nat)
    requires h.Ring() && prev in h.free && h.Ptr(prev) != h.base
    ensures prev in h.mem && h.Ptr(prev) in h.mem && h.Take(prev).Links()
  {
    assert Next(h.free, h.base, prev, h.Ptr(prev));
    var p := h.Ptr(prev);
    var g := h.Take(prev);
    assert g.free == h.free - {p} && forall a: nat :: g.Ptr(a) == if a == prev then h.Ptr(p) else h.Ptr(a);
    hide Heap.Take, Heap.Ptr, Heap.Sorted;
  }

  /** The tail q of p, n units long, became an allocated block. */
  ghost predicate Tailed(h: Heap, g: Heap, p: nat, q: nat, n: nat) {
    && g.base == h.base && g.brk == h.brk && g.got == h.got && g.live == h.live[q := n] && g.free == h.free
    && (forall a: nat {:trigger g.Size(a)} :: g.Size(a) == if a == p then h.Size(a) - n else if a == q then n
          else h.Size(a))
    && (forall a: nat :: a in h.mem || a == q ==> a in g.mem)
  }

  lemma Cut(h: Heap, p: nat, n: nat)
    requires h.Valid() && p in h.free && 0 < n < h.Size(p)
    ensures p in h.mem && h.Split(p, n).Valid()
    ensures p + HDR * (h.Size(p) - n) !in h.live && p + HDR * (h.Size(p) - n) !in h.free
  {
    hide Heap.LiveApart, Heap.Held;
    var q := p + HDR * (h.Size(p) - n);
    assert p != h.base && p < q < h.End(p);
    var g := h.Split(p, n);
    CutInside(h, p, q);
    Separate(h, p);
    assert Tailed(h, g, p, q, n) && forall a: nat :: g.Ptr(a) == h.Ptr(a);
    hide Heap.Split, Heap.Size;
    CutLive(h, g, p, q, n);
    CutLinks(h, g);
    CutBlocks(h, g, p, q, n);
    hide Heap.Links;
  }

  lemma CutInside(h: Heap, p: nat, q: nat)
    requires h.Linked() && p in h.free && p < q < h.End(p)
    ensures q !in h.live && q !in h.free
  {
    hide Heap.Size, Heap.Links;
  }

  lemma CutLinks(h: Heap, g: Heap)
    requires h.Links() && g.free == h.free && g.base == h.base && forall a: nat :: g.Ptr(a) == h.Ptr(a)
    ensures g.Links()
  {
    hide Heap.Ptr;
  }

  lemma CutLive(h: Heap, g: Heap, p: nat, q: nat, n: nat)
    requires h.Sized() && h.Sorted() && h.LiveApart() && p in h.free && p != h.base && Tailed(h, g, p, q, n)
    requires 0 < n < h.Size(p) && q == p + HDR * (h.Size(p) - n) && q !in h.free && q !in h.live && p !in h.live
    ensures g.LiveApart()
  {
    assert p < q && q + HDR * n == h.End(p);
    CutFree(h, g, p, q, n);
    hide Heap.Size, Heap.Sorted;
    AddedLive(h, g, q);
  }

  lemma CutFree(h: Heap, g: Heap, p: nat, q: nat, n: nat)
    requires h.Sorted() && h.FreeApart() && p in h.free && p !in h.live && Tailed(h, g, p, q, n)
    requires 0 < n < h.Size(p) && q == p + HDR * (h.Size(p) - n) && q !in h.free && q !in h.live
    ensures g.FreeApart()
  {
    hide Heap.Size;
    assert p < q && q + HDR * n == h.End(p);
  }

  lemma CutBlocks(h: Heap, g: Heap, p: nat, q: nat, n: nat)
    requires h.Conserved() && p in h.free && p !in h.live && Tailed(h, g, p, q, n)
    requires 0 < n < h.Size(p) && q == p + HDR * (h.Size(p) - n) && q !in h.free && q !in h.live
    ensures g.Conserved()
  {
    hide Heap.Size;
    forall u: int
      ensures g.Held(u) <==> h.Held(u)
    {
      if h.Held(u) {
        var a: nat :| h.Block(a) && a <= u < h.End(a);
        assert g.Block(if a == p && u >= q then q else a);
      }
      if g.Held(u) {
        var a: nat :| g.Block(a) && a <= u < g.End(a);
        assert h.Block(if a == q then p else a);
      }
    }
  }

  // ----- fresh memory

  lemma Grown(h: Heap, s: nat, nu: nat)
    requires h.Valid() && s >= h.brk && nu > 0
    ensures h.Grow(s, nu).Valid() && s !in h.live && s !in h.free
  {
    hide Heap.Held;
    var g := h.Grow(s, nu);
    FreshBlock(h, s);
    GrownIs(h, s, nu);
    hide Heap.Grow, Range;
    GrownLinks(h, g, s);
    hide Heap.Size, Heap.Ptr, Heap.Links, Heap.LiveSorted, Heap.FreeApart, Heap.Conserved;
    GrownFree(h, g, s, nu);
    GrownBlocks(h, g, s, nu);
    AddedLive(h, g, s);
  }

  lemma GrownIs(h: Heap, s: nat, nu: nat)
    ensures var g := h.Grow(s, nu);
            && g.free == h.free && g.live == h.live[s := nu] && g.base == h.base
            && g.brk == s + HDR * nu && g.got == h.got + Range(s, HDR * nu)
            && (forall a: nat {:trigger g.Size(a)} :: g.Size(a) == if a == s then nu else h.Size(a))
            && (forall a: nat {:trigger g.Ptr(a)} :: a != s ==> g.Ptr(a) == h.Ptr(a))
            && forall a: nat :: a in h.mem || a == s ==> a in g.mem
  {
  }

  lemma FreshBlock(h: Heap, s: nat)
    requires h.Valid() && s >= h.brk
    ensures s !in h.free && s !in h.live
  {
    hide Heap.Links, Heap.Sorted, Heap.Conserved;
  }

  lemma GrownLinks(h: Heap, g: Heap, s: nat)
    requires h.Links() && g.free == h.free && g.base == h.base && s !in h.free
    requires forall a: nat :: a != s ==> g.Ptr(a) == h.Ptr(a)
    ensures g.Links()
  {
    hide Heap.Ptr;
  }

  lemma GrownFree(h: Heap, g: Heap, s: nat, nu: nat)
    requires h.Sized() && h.FreeApart() && s >= h.brk && s !in h.free
    requires g.free == h.free && g.live == h.live[s := nu]
    requires forall a: nat {:trigger g.Size(a)} :: g.Size(a) == if a == s then nu else h.Size(a)
    ensures g.FreeApart()
  {
    hide Heap.Size;
  }

  lemma GrownBlocks(h: Heap, g: Heap, s: nat, nu: nat)
    requires h.Conserved() && g.free == h.free && g.live == h.live[s := nu] && g.got == h.got + Range(s, HDR * nu)
    requires s !in h.free && s !in h.live
    requires forall a: nat {:trigger g.Size(a)} :: g.Size(a) == if a == s then nu else h.Size(a)
    ensures g.Conserved()
  {
    hide Heap.Size;
    forall u: int
      ensures g.Held(u) <==> h.Held(u) || u in Range(s, HDR * nu)
    {
      if h.Held(u) {
        var a: nat :| h.Block(a) && a <= u < h.End(a);
        assert g.Block(a);
      }
      if u in Range(s, HDR * nu) {
        assert g.Block(s);
      }
      if g.Held(u) {
        var a: nat :| g.Block(a) && a <= u < g.End(a);
        assert a == s || h.Block(a);
      }
    }
  }

  // ----- free

  function Join(h: Heap, a: nat): Heap {
    if a in h.mem && h.Ptr(a) in h.mem && h.End(a) == h.Ptr(a) then h.Merge(a) else h
  }

  /** free's relinking: bp goes in behind p, then joins the block above it and the block below it. */
  function Release(h: Heap, p: nat, bp: nat): Heap {
    if p !in h.mem || bp !in h.mem then h else
    Join(Join(h.Insert(p, bp), bp), p)
  }

  /** Only blocks of s may touch the block above them. */
  ghost predicate ApartBut(h: Heap, s: set<nat>) {
    forall a, b :: a in h.free && b in h.free && a < b && a !in s ==> h.End(a) < b
  }

  lemma AfterInsert(h: Heap, g: Heap, p: nat, bp: nat)
    requires h.Valid() && bp in h.live && Before(h, p, bp) && SameSizes(h, g) && g.free == h.free + {bp}
    ensures ApartBut(g, {p, bp})
  {
    hide Heap.Size, Heap.Links, Heap.Conserved, Heap.LiveApart;
  }

  lemma ClearAt(h: Heap, a: nat, s: set<nat>)
    requires h.Ring() && a in h.free && h.End(a) != h.Ptr(a) && ApartBut(h, s + {a})
    ensures ApartBut(h, s)
  {
    assert Next(h.free, h.base, a, h.Ptr(a));
    hide Heap.Size, Heap.Ptr, Heap.Links;
  }

  lemma ClearByMerge(h: Heap, g: Heap, a: nat, n: nat, s: set<nat>)
    requires h.Ring() && a in h.free && n in h.free && a < n && h.End(a) == n && n !in s && ApartBut(h, s + {a})
    requires Joined(h, g, a, n)
    ensures ApartBut(g, s)
  {
    hide Heap.Size, Heap.Ptr, Heap.Links;
  }

  /** What one of the two joins of free does, or its being skipped. */
  lemma JoinOrSkip(h: Heap, a: nat, s: set<nat>) returns (g: Heap)
    requires h.Linked() && a in h.free && (a < h.End(a) || a < h.Ptr(a)) && ApartBut(h, s + {a}) &&
               forall b :: b in s ==> b < a
    ensures h.Ptr(a) in h.mem && a in h.mem && g == Join(h, a)
    ensures g.Linked() && ApartBut(g, s) && a in g.free && g.Size(a) >= h.Size(a)
    ensures g.live == h.live && g.got == h.got && g.brk == h.brk && g.base == h.base
    ensures forall b :: b in h.free && b < a ==> b in g.free && g.Ptr(b) == h.Ptr(b)
    ensures forall b :: b in h.free && b != a ==> g.Size(b) == h.Size(b)
  {
    assert Next(h.free, h.base, a, h.Ptr(a));
    hide Heap.Links, Heap.LiveApart, Heap.Conserved;
    if h.End(a) == h.Ptr(a) {
      Merged(h, a);
      g := h.Merge(a);
      ClearByMerge(h, g, a, h.Ptr(a), s);
    } else {
      g := h;
      ClearAt(h, a, s);
    }
  }

  lemma Released(h: Heap, p: nat, bp: nat)
    requires h.Valid() && bp in h.live && Before(h, p, bp)
    ensures var g := Release(h, p, bp);
            && g.Valid() && p in g.free
            && g.live == h.live - {bp} && g.got == h.got && g.brk == h.brk && g.base == h.base
            && exists c :: c in g.free && g.Size(c) >= h.Size(bp)
  {
    hide Heap.Links, Heap.LiveApart, Heap.Conserved, Heap.Sorted, Heap.Apart;
    Inserted(h, p, bp);
    var h1 := h.Insert(p, bp);
    assert SameSizes(h, h1) && h1.free == h.free + {bp} && h1.Ptr(p) == bp;
    assert h1.live == h.live - {bp} && h1.got == h.got && h1.brk == h.brk && h1.base == h.base;
    AfterInsert(h, h1, p, bp);
    hide Heap.Insert, Heap.Merge, Heap.Size, Heap.Ptr, ApartBut;
    assert {p, bp} == {p} + {bp} && {p} == {} + {p};
    var h2 := JoinOrSkip(h1, bp, {p});
    var h3 := JoinOrSkip(h2, p, {});
    NoneTouch(h3);
  }

  lemma NoneTouch(h: Heap)
    requires h.Linked() && ApartBut(h, {})
    ensures h.Valid()
  {
  }

  // ----- the searches

  /** The free blocks free's search may still visit from p on. */
  ghost function Ahead(free: set<nat>, p: nat, bp: nat): set<nat> {
    if p > bp then set c | c in free && (c > p || c < bp) else set c | c in free && p < c < bp
  }

  ghost predicate Stops(p: nat, n: nat, bp: nat) { (bp > p && bp < n) || (p >= n && (bp > p || bp < n)) }

  lemma SearchStep(h: Heap, p: nat, bp: nat)
    requires h.Ring() && p in h.free && bp !in h.free && h.base < bp
    ensures Stops(p, h.Ptr(p), bp) ==> Before(h, p, bp)
    ensures !Stops(p, h.Ptr(p), bp) ==> h.Ptr(p) in h.free && Ahead(h.free, h.Ptr(p), bp) < Ahead(h.free, p, bp)
  {
    var n := h.Ptr(p);
    assert Next(h.free, h.base, p, n);
    hide Heap.Ptr, Heap.Size, Heap.Sorted, Heap.Links;
    if !Stops(p, n, bp) {
      assert n in Ahead(h.free, p, bp) && n !in Ahead(h.free, n, bp);
    }
  }

  /** Whether malloc's search that began behind f has looked at c when its prevp is prev. */
  ghost predicate Passed(f: nat, prev: nat, started: bool, c: nat) {
    started && if prev > f then f < c <= prev else c > f || c <= prev
  }

  ghost function Unseen(free: set<nat>, f: nat, prev: nat, started: bool): set<nat> {
    set c | c in free && !Passed(f, prev, started, c)
  }

  /** No free block has n units. */
  ghost predicate NoFit(h: Heap, n: nat) { forall c :: c in h.free ==> h.Size(c) < n }

  /** A block fits when it holds the bytes and a header. */
  lemma RoomFits(h: Heap, nbytes: nat)
    ensures NoFit(h, Units(nbytes)) ==> forall a :: a in h.free && a in h.mem ==> 16 * h.mem[a].size < nbytes + 16
  {
    if NoFit(h, Units(nbytes)) {
      forall a | a in h.free && a in h.mem
        ensures 16 * h.mem[a].size < nbytes + 16
      {
        assert h.Size(a) < Units(nbytes);
      }
    }
  }

  /** What malloc's search has passed was too small. */
  ghost predicate Looked(h: Heap, f: nat, prev: nat, started: bool, n: nat) {
    && f in h.free && prev in h.free && (started <==> prev != f)
    && forall c :: c in h.free && Passed(f, prev, started, c) ==> h.Size(c) < n
  }

  lemma LookStart(h: Heap, f: nat, n: nat)
    requires f in h.free
    ensures Looked(h, f, f, false, n)
  {
  }

  /** One more block too small: either that was all, or the search goes on with less to see. */
  lemma LookOn(h: Heap, f: nat, prev: nat, started: bool, n: nat)
    requires h.Valid() && Looked(h, f, prev, started, n) && h.Size(h.Ptr(prev)) < n
    ensures var p := h.Ptr(prev);
            if p == f then NoFit(h, n)
            else Looked(h, f, p, true, n) && Unseen(h.free, f, p, true) < Unseen(h.free, f, prev, started)
  {
    var p := h.Ptr(prev);
    assert Next(h.free, h.base, prev, p);
    hide Heap.Ptr, Heap.Size, Heap.Linked, Heap.Apart;
    if p != f {
      assert p in Unseen(h.free, f, prev, started) && p !in Unseen(h.free, f, p, true);
    }
  }

  lemma Fits(h: Heap, c: nat, n: nat)
    requires c in h.free && h.Size(c) >= n
    ensures !NoFit(h, n)
  {
  }

  class Allocator {
    const base: nat
    var mem: map<nat, Header>
    var freep: nat
    ghost var free: set<nat>
    ghost var live: map<nat, nat>
    ghost var got: set<int>
    var brk: nat   // the process's size, kept by the kernel

    ghost function S(): Heap
      reads this
    {
      Heap(base, mem, free, live, got, brk)
    }

    /** freep is null before the first malloc, and a free block afterwards. */
    ghost predicate Valid()
      reads this
    {
      0 < base < brk && if freep == 0 then free == {} && live == map[] && got == {} else S().Valid() && freep in free
    }

    constructor (low: nat, size: nat)
      requires 0 < low < size
      ensures Valid() && freep == 0 && base == low && brk == size
    {
      base, brk, freep, mem := low, size, 0, map[];
      free, live, got := {}, map[], {};
    }

    /** free(ap): the block becomes free and merges with the free blocks it touches. */
    method Free(ap: nat)
      requires Valid() && ap >= HDR && ap - HDR in live
      modifies this`mem, this`freep, this`free, this`live
      ensures Valid() && freep != 0
      ensures live == old(live) - {ap - HDR} && got == old(got)
      ensures exists c :: c in free && S().Size(c) >= old(live)[ap - HDR]
    {
      hide Heap.Ring, Heap.Apart, Heap.LiveApart, Heap.Conserved, Before, Ahead, Heap.Insert, Join;
      hide Release;
      ghost var h := S();
      var bp := ap - HDR;
      BlockHeader(h, bp);
      var p := freep;
      FreeHeader(h, p);
      while !(bp > p && bp < mem[p].ptr)
        invariant p in free && p in mem && S() == h
        decreases Ahead(free, p, bp)
      {
        SearchStep(h, p, bp);
        if p >= mem[p].ptr && (bp > p || bp < mem[p].ptr) { break; }
        p := mem[p].ptr;
        FreeHeader(h, p);
      }
      SearchStep(h, p, bp);
      FreeHeader(h, p);
      BeforeIs(h, p, bp);
      Released(h, p, bp);
      ReleasedHeaders(h, p, bp);
      if bp + HDR * mem[bp].size == mem[p].ptr {
        var n := mem[p].ptr;
        mem := mem[bp := Header(mem[n].ptr, mem[bp].size + mem[n].size)];
      } else {
        mem := mem[bp := Header(mem[p].ptr, mem[bp].size)];
      }
      if p + HDR * mem[p].size == bp {
        mem := mem[p := Header(mem[bp].ptr, mem[p].size + mem[bp].size)];
      } else {
        mem := mem[p := Header(bp, mem[p].size)];
      }
      free, live := Release(h, p, bp).free, live - {bp};
      freep := p;
      assert S() == Release(h, p, bp);
    }

    /**
     morecore(nu): if sbrk has memory (`avail`, at `gap` bytes beyond the last piece), a block
     of at least nu units joins the free blocks. ok is false if sbrk is asked for another
     number of bytes.
     */
    method Morecore(nu: nat, avail: bool, gap: nat) returns (ok: bool, hp: nat)
      requires Valid() && freep != 0
      modifies this
      ensures Valid() && freep != 0 && live == old(live) && (ok <==> Argument(nu) == Asked(nu) * HDR)
      ensures !ok || !avail ==> hp == 0 && S() == old(S()) && freep == old(freep)
      ensures ok && avail ==> hp == freep && got == old(got) + Range(old(brk) + gap, HDR * Asked(nu))
      ensures ok && avail ==> exists c :: c in free && S().Size(c) >= nu
    {
      hide Heap.Valid, Range, AsInt;
      var nunits := if nu < MINUNITS then MINUNITS else nu;
      ok := AsInt(nunits * HDR) == nunits * HDR;
      if !ok || !avail { return ok, 0; }
      ghost var h := S();
      var s := brk + gap;
      Grown(h, s, nunits);
      mem := mem[s := Header(0, nunits)];
      live, got, brk := live[s := nunits], got + Range(s, HDR * nunits), s + HDR * nunits;
      assert S() == h.Grow(s, nunits);
      Free(s + HDR);
      hp := freep;
    }

    /**
     malloc(nbytes): an allocated block of exactly the units needed, cut from a free block;
     0 exactly when no free block is large enough and sbrk has no memory. sbrk is called at
     most once. ok is false if it is asked for less than the block: exactly when no free block
     is large enough and the request is above MAXREQUEST.
     */
    method Malloc(nbytes: nat, avail: bool, gap: nat) returns (ok: bool, ap: nat)
      requires Valid() && nbytes < UINT32
      modifies this
      ensures Valid() && (ok <==> nbytes <= MAXREQUEST || !NoFit(old(S()), Units(nbytes)))
      ensures !ok ==> Argument(Units(nbytes)) <= HDR < HDR * Units(nbytes) && ap == 0
      ensures ok ==> (ap == 0 <==> NoFit(old(S()), Units(nbytes)) && !avail)
      ensures ap == 0 ==> live == old(live) && got == old(got)
      ensures ap != 0 ==> ap >= HDR && ap - HDR !in old(live) && live == old(live)[ap - HDR := Units(nbytes)]
      ensures ap != 0 ==> ap + nbytes <= S().End(ap - HDR)
      ensures ap != 0 ==>
                var n := Units(nbytes);
                got == old(got) + if NoFit(old(S()), n) then Range(old(brk) + gap, HDR * Asked(n)) else {}
      ensures (exists a :: a in old(free) && a in old(mem) && 16 * old(mem)[a].size >= nbytes + 16) ==>
                ok && ap != 0 && got == old(got)
    {
      RoomFits(S(), nbytes);
      hide Heap.Valid, Range, AsInt, Argument;
      var nunits := Units(nbytes);
      SbrkExact(nbytes);
      if freep == 0 {
        FirstBlock(base, brk, mem);
        mem := mem[base := Header(base, 0)];
        freep := base;
        free := {base};
        assert S() == Heap(base, mem, {base}, map[], {}, brk);
      }
      ok, ap := Search(nunits, avail, gap);
    }

    /** malloc's search from freep on, with morecore when it has come around. */
    method Search(nunits: nat, avail: bool, gap: nat) returns (ok: bool, ap: nat)
      requires Valid() && freep != 0 && nunits > 0
      modifies this
      ensures Valid() && (ok <==> !NoFit(old(S()), nunits) || Argument(nunits) == Asked(nunits) * HDR)
      ensures ap == 0 <==> NoFit(old(S()), nunits) && (!ok || !avail)
      ensures ap == 0 ==> live == old(live) && got == old(got)
      ensures ap != 0 ==> ap >= HDR && ap - HDR !in old(live) && live == old(live)[ap - HDR := nunits]
      ensures ap != 0 ==> ap - HDR in mem && mem[ap - HDR].size == nunits
      ensures ap != 0 ==>
                got == old(got) + if NoFit(old(S()), nunits) then Range(old(brk) + gap, HDR * Asked(nunits)) else {}
    {
      hide Heap.Valid, Range, Unseen, Looked, NoFit, Argument;
      ghost var h := S();
      var prevp := freep;
      LookStart(h, freep, nunits);
      FreeHeader(h, prevp);
      var p := mem[prevp].ptr;
      ghost var started, grown := false, false;
      while true
        invariant Valid() && freep != 0 && live == old(live)
        invariant prevp in free && prevp in mem && p == mem[prevp].ptr && p in mem
        invariant Looked(S(), freep, prevp, started, nunits)
        invariant !grown ==> S() == h
        invariant grown ==> Argument(nunits) == Asked(nunits) * HDR
        invariant grown ==> avail && NoFit(h, nunits) && !NoFit(S(), nunits)
        invariant grown ==> got == old(got) + Range(old(brk) + gap, HDR * Asked(nunits))
        decreases !grown, Unseen(free, freep, prevp, started)
      {
        if mem[p].size >= nunits {
          FreeHeader(S(), prevp);
          Fits(S(), p, nunits);
          freep := prevp;
          ok := true;
          ap := Carve(prevp, nunits);
          return;
        }
        LookOn(S(), freep, prevp, started, nunits);
        if p == freep {
          ok, p := Morecore(nunits, avail, gap);
          if p == 0 { return ok, 0; }
          ghost var c :| c in free && S().Size(c) >= nunits;
          Fits(S(), c, nunits);
          started, grown := false, true;
          LookStart(S(), freep, nunits);
        } else {
          started := true;
          FreeHeader(S(), prevp);
        }
        prevp := p;
        FreeHeader(S(), p);
        p := mem[p].ptr;
      }
    }

    /** Allocate n units from the block behind prevp: all of it, or its tail. */
    method Carve(prevp: nat, n: nat) returns (ap: nat)
      requires Valid() && 0 != freep == prevp && prevp in free && prevp in mem && mem[prevp].ptr in mem
      requires 0 < n <= mem[mem[prevp].ptr].size
      modifies this`mem, this`free, this`live
      ensures Valid()
      ensures ap >= HDR && ap - HDR !in old(live) && live == old(live)[ap - HDR := n]
      ensures ap - HDR in mem && mem[ap - HDR].size == n
    {
      hide Heap.Valid;
      ghost var h := S();
      var p := mem[prevp].ptr;
      NotBase(h, prevp);
      if mem[p].size == n {
        Taken(h, prevp);
        mem := mem[prevp := Header(mem[p].ptr, mem[prevp].size)];
        free, live := free - {p}, live[p := n];
        assert S() == h.Take(prevp);
      } else {
        Cut(h, p, n);
        mem := mem[p := Header(mem[p].ptr, mem[p].size - n)];
        p := p + HDR * mem[p].size;
        mem := mem[p := Header(if p in mem then mem[p].ptr else 0, n)];
        live := live[p := n];
        assert S() == h.Split(mem[prevp].ptr, n);
      }
      ap := p + HDR;
    }
  }

  lemma BeforeIs(h: Heap, p: nat, bp: nat)
    requires Before(h, p, bp)
    ensures p < bp
  {
  }

  /** The headers free writes. */
  lemma ReleasedHeaders(h: Heap, p: nat, bp: nat)
    requires p in h.mem && bp in h.mem && h.Ptr(p) in h.mem && p < bp && bp != h.Ptr(p)
    ensures var n := h.mem[p].ptr;
            var m := h.mem[bp := if bp + HDR * h.mem[bp].size == n
                                 then Header(h.mem[n].ptr, h.mem[bp].size + h.mem[n].size)
                                 else Header(n, h.mem[bp].size)];
            Release(h, p, bp).mem == m[p := if p + HDR * h.mem[p].size == bp
                                            then Header(m[bp].ptr, h.mem[p].size + m[bp].size)
                                            else Header(bp, h.mem[p].size)]
  {
  }

  /** The ring of base alone. */
  lemma FirstBlock(base: nat, brk: nat, mem: map<nat, Header>)
    requires 0 < base < brk
    ensures Heap(base, mem[base := Header(base, 0)], {base}, map[], {}, brk).Valid()
  {
  }

  /** A block with units is not base, and its predecessor is another block. */
  lemma NotBase(h: Heap, prev: nat)
    requires h.Valid() && prev in h.free && h.Size(h.Ptr(prev)) > 0
    ensures h.Ptr(prev) in h.free && h.Ptr(prev) != h.base && h.Ptr(prev) != prev && h.Ptr(prev) !in h.live
  {
    assert Next(h.free, h.base, prev, h.Ptr(prev));
    Separate(h, h.Ptr(prev));
    hide Heap.Links, Heap.LiveApart;
  }

  lemma BlockHeader(h: Heap, bp: nat)
    requires h.Valid() && bp in h.live
    ensures bp in h.mem && h.base < bp && bp !in h.free && h.Size(bp) == h.live[bp]
  {
    hide Heap.Links, Heap.Conserved;
  }

  lemma FreeHeader(h: Heap, p: nat)
    requires h.Valid() && p in h.free
    ensures p in h.mem && h.base <= p && h.Ptr(p) in h.free && h.Ptr(p) in h.mem
  {
    assert Next(h.free, h.base, p, h.Ptr(p));
    hide Heap.Links, Heap.Conserved;
  }
}
