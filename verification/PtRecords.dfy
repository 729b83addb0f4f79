/**
 PTDUP's records of L0 tables: the packing of kernel/ptdup.h and the recorder of uvmalloc in
 kernel/vm.c. Shifts are products and quotients modulo 2^64; | of disjoint fields is a sum,
 and for the number of pages, which may not fit its field, Or.
 */
module PtRecords {
  import opened Params
  import opened PageTable

  const W := 0x1_0000_0000_0000_0000
  const LIMIT := 0x40_0000_0000
  const JUNK := 0x0505_0505_0505_0505
  const REGION := 0x20_0000

  const RWXU := 0x1E
  const PTE_D := 0x80

  /** VA2PTDS, VA2PTED */
  function PackVa(va: nat): nat { va * 0x400_0000 % W }

  /** PTDS2VA, PTED2VA */
  function VaOf(e: nat): nat { e / 0x400_0000 / PGSIZE * PGSIZE }

  /** PPN2PTDS, PPN2PTED, of an entry's bits */
  function PackPpn(pte: nat): nat { pte / 1024 * 1024 * 4 }

  /** PTDS2PPN, PTED2PPN */
  function PpnOf(e: nat): nat { e % LIMIT / 0x800 * 0x200 }

  /** PTDS2SIZE; PTED2FLAGS has the same mask */
  function LowBits(e: nat): nat { e % 0x200 }

  /** PTDS2UB */
  function UbOf(e: nat): nat { e / 0x200 % 2 * 0x10 }

  /** PTDS2ORDER */
  function OrderOf(e: nat): nat { e / 0x400 % 2 }

  /** A run of `size` pages from va and pa on, with the user bit. */
  function Ptds(va: nat, pa: nat, order: nat, size: nat): nat {
    PackPpn(PteOf(pa)) + PackVa(va) + order * 0x400 + 0x200 + size
  }

  /** One page. */
  function Pted(va: nat, pa: nat, flags: nat): nat { PackPpn(PteOf(pa)) + PackVa(va) + flags }

  predicate Small(a: nat) { a % PGSIZE == 0 && a < LIMIT }

  lemma PackedVa(va: nat)
    requires Small(va)
    ensures PackVa(va) == va / PGSIZE * LIMIT && PackVa(va) < W
  {
    var q := va / PGSIZE;
    assert va == q * PGSIZE;
    assert va * 0x400_0000 == q * LIMIT;
    assert q * LIMIT < W;
  }

  lemma PackedPpn(pa: nat)
    requires Small(pa)
    ensures PackPpn(PteOf(pa)) == pa
  {
  }

  lemma HighField(q: nat, r: nat)
    requires r < LIMIT
    ensures (q * LIMIT + r) / 0x400_0000 / PGSIZE == q && (q * LIMIT + r) % LIMIT == r
  {
    assert q * LIMIT + r == (q * PGSIZE + r / 0x400_0000) * 0x400_0000 + r % 0x400_0000;
  }

  lemma MidField(m: nat, low: nat)
    requires low < 0x800
    ensures (m * PGSIZE + low) / 0x800 * 0x200 == m * 1024
  {
    Quotient(2 * m, low, 0x800);
  }

  lemma LowField(q: nat, m: nat, low: nat)
    requires low < 0x800
    ensures (q * LIMIT + m * PGSIZE + low) % 0x800 == low
  {
    assert q * LIMIT + m * PGSIZE + low == (q * 0x800_0000 + 2 * m) * 0x800 + low;
  }

  lemma Fields(va: nat, pa: nat, low: nat)
    requires Small(va) && Small(pa) && low < 0x800
    ensures var e := PackPpn(PteOf(pa)) + PackVa(va) + low;
            VaOf(e) == va && PpnOf(e) == PteOf(pa) && e % 0x800 == low
  {
    PackedVa(va);
    PackedPpn(pa);
    var q, m := va / PGSIZE, pa / PGSIZE;
    var e := q * LIMIT + m * PGSIZE + low;
    assert PackPpn(PteOf(pa)) + PackVa(va) + low == e;
    hide PackPpn, PackVa;
    assert m * PGSIZE + low < LIMIT;
    HighField(q, m * PGSIZE + low);
    MidField(m, low);
    LowField(q, m, low);
  }

  /** Where the fields of a record are: the page number of va from bit 38 on, that of pa from bit 12. */
  lemma FieldsAt(va: nat, pa: nat, order: nat, size: nat, flags: nat)
    requires Small(va) && Small(pa)
    ensures Ptds(va, pa, order, size) == va / 0x1000 * 0x40_0000_0000 + pa + order * 0x400 + 0x200 + size
    ensures Pted(va, pa, flags) == va / 0x1000 * 0x40_0000_0000 + pa + flags
  {
    PackedVa(va);
    PackedPpn(pa);
  }

  /** Packing round trip for a run record. */
  lemma PtdsRoundTrip(va: nat, pa: nat, order: nat, size: nat)
    requires Small(va) && Small(pa) && order <= 1 && size < 0x200
    ensures var e := Ptds(va, pa, order, size);
            VaOf(e) == va && PpnOf(e) == PteOf(pa) && OrderOf(e) == order && UbOf(e) == 0x10 && LowBits(e) == size
  {
    Fields(va, pa, order * 0x400 + 0x200 + size);
    hide PackPpn, PackVa, PteOf, VaOf, PpnOf, OrderOf, UbOf, LowBits;
    LowFields(Ptds(va, pa, order, size), order, size);
  }

  /** ORDER2PTDS(order) | UB2PTDS(PTE_U) | size, the low bits of a record whose higher ones are zero there. */
  function LowWord(order: bv16, size: bv16): bv16 { (order << 10) | 0x200 | size }

  /**
   The size field has nine bits, and uvmalloc does not look: from 512 pages on a run reads back
   512 pages too short or shorter, and one of 1024 or more as ascending whatever it is.
   */
  lemma SizeExact(order: bv16, size: bv16)
    requires order <= 1 && size < 0x800
    ensures LowWord(order, size) & 0x1FF == size <==> size < 512
    ensures LowWord(order, size) & 0x1FF == size % 512
    ensures (LowWord(order, size) >> 10) & 1 == if size >= 1024 then 1 else order
    ensures LowWord(order, size) & 0x200 == 0x200
  {
  }

  lemma LowFields(e: nat, order: nat, size: nat)
    requires order <= 1 && size < 0x200 && e % 0x800 == order * 0x400 + 0x200 + size
    ensures OrderOf(e) == order && UbOf(e) == 0x10 && LowBits(e) == size
  {
    var q := e / 0x800;
    assert e == q * 0x800 + order * 0x400 + 0x200 + size;
    FieldAt(2 * q, order, 0x200 + size, 0x400);
    FieldAt(2 * (2 * q + order), 1, size, 0x200);
    assert 2 * q * 0x400 + order * 0x400 + (0x200 + size) == e;
    assert 2 * (2 * q + order) * 0x200 + 1 * 0x200 + size == e;
  }

  /** The field of one bit between the higher ones and the lower ones. */
  lemma FieldAt(high: nat, bit: nat, low: nat, unit: nat)
    requires high % 2 == 0 && bit <= 1 && low < unit
    ensures (high * unit + bit * unit + low) / unit % 2 == bit && (high * unit + bit * unit + low) % unit == low
  {
    assert high * unit + bit * unit + low == (high + bit) * unit + low;
    Quotient(high + bit, low, unit);
  }

  lemma Quotient(q: nat, r: nat, unit: nat)
    requires r < unit
    ensures (q * unit + r) / unit == q && (q * unit + r) % unit == r
  {
    var x := q * unit + r;
    assert x == x / unit * unit + x % unit;
    Multiples(x / unit, q, unit);
    Multiples(q, x / unit, unit);
  }

  lemma Multiples(a: nat, b: nat, unit: nat)
    ensures a < b ==> a * unit + unit <= b * unit
  {
    if a < b {
      assert a * unit + unit == (a + 1) * unit;
      assert b * unit == (a + 1) * unit + (b - a - 1) * unit;
    }
  }

  /** Packing round trip for a single-page record. */
  lemma PtedRoundTrip(va: nat, pa: nat, flags: nat)
    requires Small(va) && Small(pa) && flags < 0x200
    ensures var e := Pted(va, pa, flags);
            VaOf(e) == va && PpnOf(e) == PteOf(pa) && LowBits(e) == flags
  {
    Fields(va, pa, flags);
    LowFlags(Pted(va, pa, flags), flags);
  }

  lemma LowFlags(e: nat, flags: nat)
    requires flags < 0x200 && e % 0x800 == flags
    ensures LowBits(e) == flags
  {
    assert e == 4 * (e / 0x800) * 0x200 + flags;
  }

  // ----- |

  function Or(a: nat, b: nat): nat {
    if a == 0 then b else if b == 0 then a
    else 2 * Or(a / 2, b / 2) + if a % 2 == 1 || b % 2 == 1 then 1 else 0
  }

  function Pow2(k: nat): (p: nat)
    ensures p > 0
  {
    if k == 0 then 1 else 2 * Pow2(k - 1)
  }

  /** | works on the bits above and below any place by themselves. */
  lemma {:induction false} OrSplit(c: nat, a: nat, d: nat, b: nat, k: nat)
    requires a < Pow2(k) && b < Pow2(k)
    ensures Or(c * Pow2(k) + a, d * Pow2(k) + b) == Or(c, d) * Pow2(k) + Or(a, b) && Or(a, b) < Pow2(k)
  {
    hide Or;
    OrZero(c);
    OrZero(d);
    OrZero(0);
    if k > 0 {
      var p, o := Pow2(k - 1), Or(c, d);
      OrSplit(c, a / 2, d, b / 2, k - 1);
      OrHalf(a, b);
      OrHalf(c * (2 * p) + a, d * (2 * p) + b);
      Halves(c, a, p);
      Halves(d, b, p);
      assert 2 * (o * p) == o * (2 * p);
    }
  }

  lemma Halves(c: nat, a: nat, p: nat)
    ensures (c * (2 * p) + a) / 2 == c * p + a / 2 && (c * (2 * p) + a) % 2 == a % 2
  {
    assert c * (2 * p) + a == (c * p) * 2 + a;
  }

  lemma OrHalf(a: nat, b: nat)
    ensures Or(a, b) == 2 * Or(a / 2, b / 2) + if a % 2 == 1 || b % 2 == 1 then 1 else 0
  {
  }

  lemma OrZero(a: nat)
    ensures Or(a, 0) == a == Or(0, a)
  {
  }

  /** | of disjoint fields is a sum. */
  lemma OrAdd(c: nat, b: nat, k: nat)
    requires b < Pow2(k)
    ensures Or(c * Pow2(k), b) == c * Pow2(k) + b
  {
    hide Or;
    OrSplit(c, 0, 0, b, k);
    OrZero(c);
    OrZero(b);
  }

  lemma {:induction false} PowSum(a: nat, b: nat)
    ensures Pow2(a + b) == Pow2(a) * Pow2(b)
  {
    if a > 0 {
      PowSum(a - 1, b);
    }
  }

  lemma Powers()
    ensures Pow2(9) == 0x200 && Pow2(10) == 0x400 && Pow2(11) == 0x800 && Pow2(38) == LIMIT
  {
    PowSum(9, 10);
    PowSum(19, 19);
  }

  /** entry|ORDER2PTDS(order)|UB2PTDS(PTE_U)|size */
  function Marked(entry: nat, order: nat, size: nat): nat { Or(Or(Or(entry, order * 0x400), 0x200), size) }

  /** The address field is right for any number of pages. */
  lemma MarkedVa(q: nat, pa: nat, order: nat, size: nat)
    requires pa < LIMIT && order <= 1 && size < LIMIT
    ensures VaOf(Marked(q * LIMIT + pa, order, size)) == q * PGSIZE
  {
    hide Or, Pow2;
    Powers();
    var r1 := Or(pa, order * 0x400);
    var r2 := Or(r1, 0x200);
    OrZero(q);
    OrSplit(q, pa, 0, order * 0x400, 38);
    OrSplit(q, r1, 0, 0x200, 38);
    OrSplit(q, r2, 0, size, 38);
    HighField(q, Or(r2, size));
  }

  /** The number of pages reads back modulo 512. */
  lemma MarkedSize(entry: nat, order: nat, size: nat)
    requires entry % 0x200 == 0 && order <= 1
    ensures LowBits(Marked(entry, order, size)) == size % 0x200
  {
    hide Or, Pow2;
    Powers();
    var c1 := Or(entry / 0x200, 2 * order);
    var c2 := Or(c1, 1);
    OrZero(0);
    OrZero(size % 0x200);
    OrSplit(entry / 0x200, 0, 2 * order, 0, 9);
    OrSplit(c1, 0, 1, 0, 9);
    OrSplit(c2, 0, size / 0x200, size % 0x200, 9);
    Quotient(Or(c2, size / 0x200), size % 0x200, 0x200);
  }

  lemma MarkedSum(entry: nat, order: nat, size: nat)
    requires entry % 0x800 == 0 && order <= 1 && size < 512
    ensures Marked(entry, order, size) == entry + order * 0x400 + 0x200 + size
  {
    hide Or, Pow2;
    Powers();
    OrAdd(entry / 0x800, order * 0x400, 11);
    OrAdd(entry / 0x800 * 2 + order, 0x200, 10);
    OrAdd((entry / 0x800 * 2 + order) * 2 + 1, size, 9);
  }

  // ----- uvmalloc's recorder

  /** uvmalloc's mapping of mems from oldsz on stays below MAXVA. */
  ghost predicate Mappable(oldsz: nat, mems: seq<nat>) {
    oldsz % PGSIZE == 0 && oldsz + |mems| * PGSIZE <= MAXVA && Distinct(mems)
  }

  /** What kalloc hands out. */
  predicate Ram(p: nat) { p % PGSIZE == 0 && KERNBASE <= p < PHYSTOP }

  function Sub64(a: nat, b: nat): nat { (a - b) % W }

  predicate Adjacent(x: nat, y: nat) { y == x + PGSIZE || x == y + PGSIZE }

  /** Page t of a run from x on. */
  function RunPage(x: nat, order: nat, t: nat): int { if order == 1 then x + t * PGSIZE else x - t * PGSIZE }

  /** mems[i..i + n] is one run in the direction of order. */
  ghost predicate IsRun(mems: seq<nat>, i: nat, n: nat, order: nat) {
    i + n <= |mems| && order <= 1 && forall t {:trigger RunPage(mems[i], order, t)} :: 0 <= t < n ==>
        mems[i + t] == RunPage(mems[i], order, t)
  }

  ghost predicate Distinct(mems: seq<nat>) {
    (forall i :: 0 <= i < |mems| ==> Ram(mems[i])) && forall i, j :: 0 <= i < j < |mems| ==> mems[i] != mems[j]
  }

  /** Page i does not continue a run. */
  predicate Breaks(mems: seq<nat>, i: nat)
    requires i < |mems|
  {
    i >= 1 && !Adjacent(mems[i - 1], mems[i])
  }

  /** No page of mems[i..i + n] breaks a run, and none could come before page i. */
  ghost predicate Unbroken(mems: seq<nat>, i: nat, n: nat) {
    i + n <= |mems| && (i == 0 || Breaks(mems, i - 1)) && forall t :: i <= t < i + n ==> !Breaks(mems, t)
  }

  /** e is the record of the run of n pages from page i on. */
  ghost predicate RunRecord(e: nat, oldsz: nat, mems: seq<nat>, i: nat, n: nat, order: nat) {
    && 2 <= n < 512 && IsRun(mems, i, n, order) && Unbroken(mems, i, n)
    && e == Ptds(oldsz + i * PGSIZE, mems[i], order, n)
  }

  /** A run record that names pages just as they were mapped from oldsz on. */
  ghost predicate PtdsSound(e: nat, oldsz: nat, mems: seq<nat>) {
    exists i: nat, n: nat, order: nat :: RunRecord(e, oldsz, mems, i, n, order)
  }

  ghost predicate PtedSound(e: nat, oldsz: nat, mems: seq<nat>) {
    exists i: nat :: i < |mems| && e == Pted(oldsz + i * PGSIZE, mems[i], RWXU)
  }

  ghost predicate Sound(ptds: seq<nat>, pted: seq<nat>, oldsz: nat, mems: seq<nat>) {
    && (forall e :: e in ptds ==> PtdsSound(e, oldsz, mems))
    && (forall e :: e in pted ==> PtedSound(e, oldsz, mems))
  }

  /** The recorder's variables after n pages: the last `size` of them are a run that `entry` starts. */
  ghost predicate Recording(oldsz: nat, mems: seq<nat>, n: nat, size: nat, order: nat, bmem: nat, entry: nat) {
    && size <= n <= |mems| && order <= 1
    && bmem == (if n == 0 then 0 else mems[n - 1])
    && (size == 0 ==> entry == 0 && order == 0)
    && (size > 0 ==> entry == PackPpn(PteOf(mems[n - size])) + PackVa(oldsz + (n - size) * PGSIZE))
    && (size > 0 ==> IsRun(mems, n - size, size, order))
  }

  /** The recorder never counts to 512 pages. */
  ghost predicate ShortRuns(mems: seq<nat>) { forall i :: 0 <= i ==> !Unbroken(mems, i, 512) }

  /** The tail of a run of distinct pages keeps its direction. */
  lemma RunGrows(oldsz: nat, mems: seq<nat>, n: nat, size: nat, order: nat, bmem: nat, entry: nat, order': nat)
    requires Distinct(mems) && n < |mems| && 0 < size && Recording(oldsz, mems, n, size, order, bmem, entry)
    requires order' <= 1 && mems[n] == RunPage(bmem, order', 1)
    ensures IsRun(mems, n - size, size + 1, order')
  {
    var i := n - size;
    if size == 1 {
      assert mems[n - 1] == mems[i];
    } else {
      assert RunPage(mems[i], order, size - 1) == mems[n - 1];
      assert RunPage(mems[i], order, size - 2) == mems[n - 2];
      assert order == order';
    }
  }

  /** Page n continues the run, or starts one. */
  lemma RecordingGrows(oldsz: nat, mems: seq<nat>, n: nat, size: nat, order: nat, bmem: nat, entry: nat, order': nat)
    requires Distinct(mems) && n < |mems| && Recording(oldsz, mems, n, size, order, bmem, entry)
    requires order' <= 1 && (size > 0 ==> mems[n] == RunPage(bmem, order', 1))
    ensures var first := PackPpn(PteOf(mems[n])) + PackVa(oldsz + n * PGSIZE);
            Recording(oldsz, mems, n + 1, size + 1, order', mems[n], if size == 0 then first else entry)
  {
    hide PackPpn, PackVa, PteOf;
    if size > 0 {
      RunGrows(oldsz, mems, n, size, order, bmem, entry, order');
    }
  }

  lemma CoveringGrows(oldsz: nat, mems: seq<nat>, n: nat, size: nat, ptds: seq<nat>, pted: seq<nat>)
    requires Covering(oldsz, mems, n, size, ptds, pted) && n < |mems| && !Breaks(mems, n)
    ensures Covering(oldsz, mems, n + 1, size + 1, ptds, pted)
  {
    hide Breaks, Recorded;
  }

  lemma RunStarts(mems: seq<nat>, n: nat)
    requires n < |mems|
    ensures forall order :: 0 <= order <= 1 ==> IsRun(mems, n, 1, order)
  {
  }

  lemma NextTo(x: nat, y: nat)
    requires Ram(y) && (x == 0 || Ram(x))
    ensures Sub64(x, y) == PGSIZE <==> x == y + PGSIZE
    ensures Sub64(y, x) == PGSIZE <==> y == x + PGSIZE
  {
  }

  // ----- which pages the records cover

  /** Page i is in a run of two or more pages. */
  predicate InRun(mems: seq<nat>, i: nat)
    requires i < |mems|
  {
    !Breaks(mems, i) && ((i >= 1 && !Breaks(mems, i - 1)) || (i + 1 < |mems| && !Breaks(mems, i + 1)))
  }

  /**
   The pages the recorder leaves out: one that ends a run of two or more pages, and one,
   other than the first, that stands alone between two breaks.
   */
  predicate Skipped(mems: seq<nat>, i: nat)
    requires i < |mems|
  {
    if Breaks(mems, i) then i >= 2 && !Breaks(mems, i - 1) && !Breaks(mems, i - 2)
    else i >= 1 && Breaks(mems, i - 1) && i + 1 < |mems| && Breaks(mems, i + 1)
  }

  /** The recorder counts the n pages from page i on, and no more. */
  ghost predicate Whole(mems: seq<nat>, i: nat, n: nat) {
    Unbroken(mems, i, n) && (i + n == |mems| || Breaks(mems, i + n))
  }

  /** Page k is in a run of two or more pages, and the run's record, with nine bits for the number, gets to it. */
  ghost predicate Kept(mems: seq<nat>, k: nat) {
    exists i: nat, n: nat :: Whole(mems, i, n) && 2 <= n && i <= k < i + n % 512
  }

  lemma OneWhole(mems: seq<nat>, i: nat, n: nat, j: nat, m: nat, k: nat)
    requires Whole(mems, i, n) && Whole(mems, j, m) && i <= k < i + n && j <= k < j + m
    ensures i == j && n == m
  {
    hide Adjacent;
  }

  lemma KeptAt(mems: seq<nat>, i: nat, n: nat, k: nat)
    requires Whole(mems, i, n) && i <= k < i + n
    ensures Kept(mems, k) <==> 2 <= n && k < i + n % 512
  {
    if Kept(mems, k) {
      var j: nat, m: nat :| Whole(mems, j, m) && 2 <= m && j <= k < j + m % 512;
      OneWhole(mems, i, n, j, m, k);
    }
  }

  lemma BreakNotKept(mems: seq<nat>, k: nat)
    requires k < |mems| && Breaks(mems, k)
    ensures !Kept(mems, k)
  {
  }

  /** A page that breaks no run is in just one. */
  lemma {:induction false} InWhole(mems: seq<nat>, i: nat, n: nat) returns (m: nat)
    requires Unbroken(mems, i, n)
    ensures m >= n && Whole(mems, i, m)
    decreases |mems| - i - n
  {
    if Whole(mems, i, n) {
      m := n;
    } else {
      m := InWhole(mems, i, n + 1);
    }
  }

  lemma {:induction false} Begins(mems: seq<nat>, k: nat) returns (i: nat, n: nat)
    requires k < |mems| && !Breaks(mems, k)
    ensures Unbroken(mems, i, n) && i <= k < i + n
  {
    if k == 0 || Breaks(mems, k - 1) {
      i, n := k, 1;
    } else {
      i, n := Begins(mems, k - 1);
      n := k + 1 - i;
    }
  }

  /** With fewer than 512 pages in every run, the records get to all of them. */
  lemma KeptInRun(mems: seq<nat>, k: nat)
    requires ShortRuns(mems) && k < |mems|
    ensures Kept(mems, k) <==> InRun(mems, k)
  {
    if Breaks(mems, k) {
      BreakNotKept(mems, k);
    } else {
      var i, n := Begins(mems, k);
      n := InWhole(mems, i, n);
      if n >= 512 { assert Unbroken(mems, i, 512); }
      KeptAt(mems, i, n, k);
    }
  }

  /** Otherwise some page of a run is out of reach. */
  lemma Lost(mems: seq<nat>) returns (k: nat)
    requires !ShortRuns(mems)
    ensures k < |mems| && InRun(mems, k) && !Kept(mems, k)
  {
    var i: nat :| Unbroken(mems, i, 512);
    var n := InWhole(mems, i, 512);
    k := i + n - 1;
    KeptAt(mems, i, n, k);
  }

  /** Page i is recorded by itself. */
  predicate Alone(mems: seq<nat>, i: nat)
    requires i < |mems|
  {
    !InRun(mems, i) && !Skipped(mems, i)
  }

  /** A run record covers va. */
  predicate Spans(e: nat, va: nat) { VaOf(e) <= va < VaOf(e) + LowBits(e) * PGSIZE }

  /** Some run record covers page i of those mapped from oldsz on. */
  ghost predicate NamedRun(ptds: seq<nat>, oldsz: nat, i: nat) {
    exists e :: e in ptds && Spans(e, oldsz + i * PGSIZE)
  }

  /** Some single-page record covers page i. */
  ghost predicate NamedPage(pted: seq<nat>, oldsz: nat, i: nat) {
    exists e :: e in pted && VaOf(e) == oldsz + i * PGSIZE
  }

  /** At most one record covers page i. */
  ghost predicate NamedOnce(ptds: seq<nat>, pted: seq<nat>, oldsz: nat, i: nat) {
    var va := oldsz + i * PGSIZE;
    && (forall m, n :: 0 <= m < n < |ptds| ==> !Spans(ptds[m], va) || !Spans(ptds[n], va))
    && (forall m, n :: 0 <= m < n < |pted| ==> VaOf(pted[m]) != va || VaOf(pted[n]) != va)
    && (forall m, n :: 0 <= m < |ptds| && 0 <= n < |pted| ==> !Spans(ptds[m], va) || VaOf(pted[n]) != va)
  }

  lemma AppendOnce(ptds: seq<nat>, pted: seq<nat>, oldsz: nat, e: nat, k: nat)
    requires NamedOnce(ptds, pted, oldsz, k)
    ensures (!NamedRun(ptds, oldsz, k) && !NamedPage(pted, oldsz, k)) || !Spans(e, oldsz + k * PGSIZE) ==>
              NamedOnce(ptds + [e], pted, oldsz, k)
    ensures (!NamedRun(ptds, oldsz, k) && !NamedPage(pted, oldsz, k)) || VaOf(e) != oldsz + k * PGSIZE ==>
              NamedOnce(ptds, pted + [e], oldsz, k)
  {
    hide Spans, VaOf;
    assert forall m :: 0 <= m < |ptds| ==> ptds[m] in ptds;
    assert forall m :: 0 <= m < |pted| ==> pted[m] in pted;
  }

  lemma AppendNamed(s: seq<nat>, oldsz: nat, e: nat, k: nat)
    ensures NamedRun(s + [e], oldsz, k) <==> NamedRun(s, oldsz, k) || Spans(e, oldsz + k * PGSIZE)
    ensures NamedPage(s + [e], oldsz, k) <==> NamedPage(s, oldsz, k) || VaOf(e) == oldsz + k * PGSIZE
  {
    var va := oldsz + k * PGSIZE;
    hide Spans, VaOf;
    if x :| x in s && Spans(x, va) {
      assert x in s + [e];
    }
    if x :| x in s && VaOf(x) == va {
      assert x in s + [e];
    }
    assert (s + [e])[|s|] == e && e in s + [e];
  }

  lemma AddPtds(ptds: seq<nat>, pted: seq<nat>, oldsz: nat, e: nat, i: nat, n: nat, k: nat)
    requires VaOf(e) == oldsz + i * PGSIZE && LowBits(e) == n
    ensures NamedRun(ptds + [e], oldsz, k) <==> NamedRun(ptds, oldsz, k) || i <= k < i + n
    ensures NamedOnce(ptds, pted, oldsz, k)
            && !((NamedRun(ptds, oldsz, k) || NamedPage(pted, oldsz, k)) && i <= k < i + n) ==>
              NamedOnce(ptds + [e], pted, oldsz, k)
  {
    hide NamedRun, NamedPage, NamedOnce;
    AppendNamed(ptds, oldsz, e, k);
    if NamedOnce(ptds, pted, oldsz, k) { AppendOnce(ptds, pted, oldsz, e, k); }
    hide VaOf, LowBits;
  }

  lemma AddPted(ptds: seq<nat>, pted: seq<nat>, oldsz: nat, mems: seq<nat>, e: nat, i: nat, k: nat)
    requires Mappable(oldsz, mems) && k < |mems| && i < |mems| && e == Pted(oldsz + i * PGSIZE, mems[i], RWXU)
    ensures NamedPage(pted + [e], oldsz, k) <==> NamedPage(pted, oldsz, k) || k == i
    ensures NamedOnce(ptds, pted, oldsz, k)
            && !((NamedRun(ptds, oldsz, k) || NamedPage(pted, oldsz, k)) && k == i) ==>
              NamedOnce(ptds, pted + [e], oldsz, k)
  {
    PtedRoundTrip(oldsz + i * PGSIZE, mems[i], RWXU);
    hide NamedRun, NamedPage, NamedOnce, Pted, VaOf;
    AppendNamed(pted, oldsz, e, k);
    if NamedOnce(ptds, pted, oldsz, k) { AppendOnce(ptds, pted, oldsz, e, k); }
  }

  /** All pages are recorded, and once: those of runs by run records, those alone by themselves. */
  ghost predicate Told(oldsz: nat, mems: seq<nat>, ptds: seq<nat>, pted: seq<nat>) {
    forall k :: 0 <= k < |mems| ==>
      && (NamedRun(ptds, oldsz, k) <==> InRun(mems, k))
      && (NamedPage(pted, oldsz, k) <==> Alone(mems, k))
      && NamedOnce(ptds, pted, oldsz, k)
  }

  /** Just the first n pages are recorded, and once, as far as the records of the runs get. */
  ghost predicate Recorded(oldsz: nat, mems: seq<nat>, n: nat, ptds: seq<nat>, pted: seq<nat>) {
    forall k :: 0 <= k < |mems| ==>
      && (NamedRun(ptds, oldsz, k) <==> k < n && Kept(mems, k))
      && (NamedPage(pted, oldsz, k) <==> k < n && Alone(mems, k))
      && NamedOnce(ptds, pted, oldsz, k)
  }

  lemma ToldExact(oldsz: nat, mems: seq<nat>, ptds: seq<nat>, pted: seq<nat>)
    requires Recorded(oldsz, mems, |mems|, ptds, pted)
    ensures Told(oldsz, mems, ptds, pted) <==> ShortRuns(mems)
  {
    hide NamedRun, NamedPage, NamedOnce, Kept, InRun, Alone, Unbroken;
    if ShortRuns(mems) {
      forall k | 0 <= k < |mems|
        ensures Kept(mems, k) <==> InRun(mems, k)
      {
        KeptInRun(mems, k);
      }
    } else {
      var k := Lost(mems);
      assert NamedRun(ptds, oldsz, k) <==> Kept(mems, k);
    }
  }

  /**
   The recorder on three pages: two in a row and a third lose the third, but one before two in a
   row leaves all three by themselves.
   */
  lemma ThreePages(oldsz: nat, mems: seq<nat>, ptds: seq<nat>, pted: seq<nat>)
    requires |mems| == 3 && Recorded(oldsz, mems, 3, ptds, pted)
    ensures var first, second := Adjacent(mems[0], mems[1]), Adjacent(mems[1], mems[2]);
            && (forall k :: 0 <= k < 3 ==> (NamedRun(ptds, oldsz, k) <==> first && (second || k < 2)))
            && (forall k :: 0 <= k < 3 ==> (NamedPage(pted, oldsz, k) <==> !first))
  {
    hide NamedRun, NamedPage, NamedOnce, Adjacent, Kept;
    assert Breaks(mems, 1) <==> !Adjacent(mems[0], mems[1]);
    assert Breaks(mems, 2) <==> !Adjacent(mems[1], mems[2]);
    assert ShortRuns(mems);
    forall k: nat | k < 3
      ensures NamedRun(ptds, oldsz, k) <==> InRun(mems, k)
      ensures NamedPage(pted, oldsz, k) <==> Alone(mems, k)
    {
      KeptInRun(mems, k);
    }
  }

  /** The records cover just the pages before the current run that are not skipped. */
  ghost predicate Covering(oldsz: nat, mems: seq<nat>, n: nat, size: nat, ptds: seq<nat>, pted: seq<nat>) {
    size <= n <= |mems| && Unbroken(mems, n - size, size) && Recorded(oldsz, mems, n - size, ptds, pted)
  }

  lemma CoverRun(oldsz: nat, mems: seq<nat>, n: nat, size: nat, ptds: seq<nat>, pted: seq<nat>, e: nat)
    requires Covering(oldsz, mems, n, size, ptds, pted) && 2 <= size && Whole(mems, n - size, size)
    requires VaOf(e) == oldsz + (n - size) * PGSIZE && LowBits(e) == size % 512
    ensures Recorded(oldsz, mems, n, ptds + [e], pted)
  {
    hide NamedRun, NamedPage, NamedOnce, Adjacent, Kept, VaOf, LowBits;
    forall k | 0 <= k < |mems|
      ensures NamedRun(ptds + [e], oldsz, k) <==> k < n && Kept(mems, k)
      ensures NamedPage(pted, oldsz, k) <==> k < n && Alone(mems, k)
      ensures NamedOnce(ptds + [e], pted, oldsz, k)
    {
      AddPtds(ptds, pted, oldsz, e, n - size, size % 512, k);
      if n - size <= k < n { KeptAt(mems, n - size, size, k); }
      assert k == n - size ==> !Breaks(mems, k + 1);
      assert k > n - size && k < n ==> !Breaks(mems, k - 1);
    }
  }

  /** A run of one page is not recorded as a run. */
  lemma ShortNotKept(mems: seq<nat>, n: nat, size: nat)
    requires size <= 1 && size <= n <= |mems| && Unbroken(mems, n - size, size) && (n == |mems| || Breaks(mems, n))
    ensures size == 1 ==> !Kept(mems, n - 1)
    ensures n < |mems| ==> !Kept(mems, n)
  {
    if size == 1 { KeptAt(mems, n - 1, 1, n - 1); }
    if n < |mems| { BreakNotKept(mems, n); }
  }

  /** After page n broke a run of one page or none and was recorded by itself. */
  lemma CoverOne(oldsz: nat, mems: seq<nat>, n: nat, size: nat, ptds: seq<nat>, pted: seq<nat>, e: nat)
    requires Mappable(oldsz, mems)
    requires Covering(oldsz, mems, n, size, ptds, pted) && size <= 1 && 1 < n < |mems| && Breaks(mems, n)
    requires e == Pted(oldsz + n * PGSIZE, mems[n], RWXU)
    ensures Covering(oldsz, mems, n + 1, 0, ptds, pted + [e])
  {
    hide NamedRun, NamedPage, NamedOnce, Pted, Adjacent, Kept;
    ShortNotKept(mems, n, size);
    forall k | 0 <= k < |mems|
      ensures NamedRun(ptds, oldsz, k) <==> k < n + 1 && Kept(mems, k)
      ensures NamedPage(pted + [e], oldsz, k) <==> k < n + 1 && Alone(mems, k)
      ensures NamedOnce(ptds, pted + [e], oldsz, k)
    {
      AddPted(ptds, pted, oldsz, mems, e, n, k);
    }
  }

  /** The second page broke the first one's run: both are recorded by themselves. */
  lemma CoverTwo(oldsz: nat, mems: seq<nat>, ptds: seq<nat>, pted: seq<nat>, e1: nat, e0: nat)
    requires Mappable(oldsz, mems)
    requires 1 < |mems| && Covering(oldsz, mems, 1, 1, ptds, pted) && Breaks(mems, 1)
    requires e1 == Pted(oldsz + 1 * PGSIZE, mems[1], RWXU) && e0 == Pted(oldsz + 0 * PGSIZE, mems[0], RWXU)
    ensures Covering(oldsz, mems, 2, 0, ptds, pted + [e1] + [e0])
  {
    hide NamedRun, NamedPage, NamedOnce, Pted, Adjacent, Kept;
    ShortNotKept(mems, 1, 1);
    forall k | 0 <= k < |mems|
      ensures NamedRun(ptds, oldsz, k) <==> k < 2 && Kept(mems, k)
      ensures NamedPage(pted + [e1] + [e0], oldsz, k) <==> k < 2 && Alone(mems, k)
      ensures NamedOnce(ptds, pted + [e1] + [e0], oldsz, k)
    {
      AddPted(ptds, pted, oldsz, mems, e1, 1, k);
      AddPted(ptds, pted + [e1], oldsz, mems, e0, 0, k);
    }
  }

  lemma CoverLong(oldsz: nat, mems: seq<nat>, n: nat, size: nat, ptds: seq<nat>, pted: seq<nat>, e: nat)
    requires Covering(oldsz, mems, n, size, ptds, pted) && 2 <= size && n < |mems| && Breaks(mems, n)
    requires VaOf(e) == oldsz + (n - size) * PGSIZE && LowBits(e) == size % 512
    ensures Covering(oldsz, mems, n + 1, 0, ptds + [e], pted)
  {
    CoverRun(oldsz, mems, n, size, ptds, pted, e);
    BreakNotKept(mems, n);
    hide NamedRun, NamedPage, NamedOnce, Adjacent, Kept, VaOf, LowBits;
    assert !Breaks(mems, n - 1) && !Breaks(mems, n - 2);
  }

  /** The page that breaks a run: the run is recorded, or else the page; the run variables are reset. */
  method Break(oldsz: nat, mems: seq<nat>, n: nat, size: nat, order: nat, bmem: nat, entry: nat, ptds: seq<nat>,
               pted: seq<nat>)
    returns (ptds': seq<nat>, pted': seq<nat>)
    requires Mappable(oldsz, mems) && 0 < n < |mems| && Recording(oldsz, mems, n, size, order, bmem, entry)
    requires ShortRuns(mems) ==> Sound(ptds, pted, oldsz, mems)
    requires Covering(oldsz, mems, n, size, ptds, pted) && Breaks(mems, n)
    ensures ShortRuns(mems) ==> Sound(ptds', pted', oldsz, mems)
    ensures Covering(oldsz, mems, n + 1, 0, ptds', pted')
  {
    hide Covering, Breaks, IsRun, PtdsSound, PtedSound, PackPpn, PackVa, PteOf, ShortRuns, Marked, VaOf, LowBits;
    var mem, a := mems[n], oldsz + n * PGSIZE;
    ptds', pted' := ptds, pted;
    if n == 1 { BreakSize(oldsz, mems, n, size, ptds, pted); }
    if size > 1 {
      CoveringRun(oldsz, mems, n, size, ptds, pted);
      RunEntry(oldsz, mems, n, size, order, bmem, entry);
      ptds' := ptds' + [Marked(entry, order, size)];
      CoverLong(oldsz, mems, n, size, ptds, pted, ptds'[|ptds|]);
    } else {
      pted' := pted' + [PackPpn(PteOf(mem)) + PackVa(a) + RWXU];
      OnePageSound(oldsz, mems, n);
      if n > 1 {
        CoverOne(oldsz, mems, n, size, ptds, pted, pted'[|pted|]);
      }
    }
    if a == oldsz + PGSIZE {
      OnePageSound(oldsz, mems, 0);
      CoverTwo(oldsz, mems, ptds, pted, Pted(a, mem, RWXU), Pted(oldsz, bmem, RWXU));
      pted' := pted' + [PackPpn(PteOf(bmem)) + PackVa(oldsz) + RWXU];
    }
  }

  lemma BreakSize(oldsz: nat, mems: seq<nat>, n: nat, size: nat, ptds: seq<nat>, pted: seq<nat>)
    requires Covering(oldsz, mems, n, size, ptds, pted) && n == 1
    ensures size == 1
  {
  }

  lemma OnePageSound(oldsz: nat, mems: seq<nat>, i: nat)
    requires i < |mems|
    ensures PtedSound(Pted(oldsz + i * PGSIZE, mems[i], RWXU), oldsz, mems)
  {
  }

  /** One round of the recorder at page mem of address a. */
  method Round(oldsz: nat, mems: seq<nat>, n: nat, size: nat, order: nat, bmem: nat, entry: nat, ptds: seq<nat>,
               pted: seq<nat>)
    returns (size': nat, order': nat, bmem': nat, entry': nat, ptds': seq<nat>, pted': seq<nat>)
    requires Mappable(oldsz, mems) && n < |mems| && Recording(oldsz, mems, n, size, order, bmem, entry)
    requires ShortRuns(mems) ==> Sound(ptds, pted, oldsz, mems)
    requires Covering(oldsz, mems, n, size, ptds, pted)
    ensures Recording(oldsz, mems, n + 1, size', order', bmem', entry')
    ensures ShortRuns(mems) ==> Sound(ptds', pted', oldsz, mems)
    ensures Covering(oldsz, mems, n + 1, size', ptds', pted')
    ensures size == n && (n == 0 || Adjacent(bmem, mems[n])) ==> size' == n + 1 && ptds' == ptds && pted' == pted
  {
    hide Covering, Sound, IsRun, PackPpn, PackVa, PteOf, ShortRuns;
    var mem, a := mems[n], oldsz + n * PGSIZE;
    size', order', entry', ptds', pted' := size, order, entry, ptds, pted;
    NextTo(bmem, mem);
    if size == 0 {
      entry' := entry' + PackPpn(PteOf(mem)) + PackVa(a);
    }
    if Sub64(bmem, mem) == PGSIZE {
      RecordingGrows(oldsz, mems, n, size, order, bmem, entry, 0);
      CoveringGrows(oldsz, mems, n, size, ptds, pted);
      order' := 0;
      size' := size' + 1;
    } else if Sub64(mem, bmem) == PGSIZE {
      RecordingGrows(oldsz, mems, n, size, order, bmem, entry, 1);
      CoveringGrows(oldsz, mems, n, size, ptds, pted);
      order' := 1;
      size' := size' + 1;
    } else if bmem == 0 {
      RecordingGrows(oldsz, mems, n, size, order, bmem, entry, order);
      CoveringGrows(oldsz, mems, n, size, ptds, pted);
      size' := size' + 1;
    } else {
      ptds', pted' := Break(oldsz, mems, n, size, order, bmem, entry, ptds, pted);
      size', entry', order' := 0, 0, 0;
    }
    bmem' := mem;
  }

  lemma EntryIs(oldsz: nat, mems: seq<nat>, n: nat, size: nat, order: nat, bmem: nat, entry: nat)
    requires Mappable(oldsz, mems) && Recording(oldsz, mems, n, size, order, bmem, entry) && size > 0
    ensures var va, pa := oldsz + (n - size) * PGSIZE, mems[n - size];
            && Small(pa) && entry == va / PGSIZE * LIMIT + pa && entry == PackPpn(PteOf(pa)) + PackVa(va)
            && size < LIMIT && va / PGSIZE * PGSIZE == va
    ensures entry % 0x800 == 0 && entry % 0x200 == 0
  {
    var va, pa := oldsz + (n - size) * PGSIZE, mems[n - size];
    PackedVa(va);
    PackedPpn(pa);
    hide PackPpn, PackVa, PteOf, IsRun;
    EntryLow(va / PGSIZE, pa / PGSIZE);
  }

  lemma EntryLow(q: nat, m: nat)
    ensures (q * LIMIT + m * PGSIZE) % 0x800 == 0 && (q * LIMIT + m * PGSIZE) % 0x200 == 0
  {
    LowField(q, m, 0);
    Quotient(q * 0x2000_0000 + m * 8, 0, 0x200);
  }

  /** What the recorder writes for the run it has counted. */
  lemma RunEntry(oldsz: nat, mems: seq<nat>, n: nat, size: nat, order: nat, bmem: nat, entry: nat)
    requires Mappable(oldsz, mems) && Recording(oldsz, mems, n, size, order, bmem, entry) && size > 1
    requires Unbroken(mems, n - size, size)
    ensures VaOf(Marked(entry, order, size)) == oldsz + (n - size) * PGSIZE
    ensures LowBits(Marked(entry, order, size)) == size % 512
    ensures size < 512 ==> Marked(entry, order, size) == Ptds(oldsz + (n - size) * PGSIZE, mems[n - size], order, size)
    ensures ShortRuns(mems) ==> PtdsSound(Marked(entry, order, size), oldsz, mems)
  {
    hide PackPpn, PackVa, PteOf, Marked, VaOf, LowBits, Mappable, IsRun, Unbroken;
    EntryIs(oldsz, mems, n, size, order, bmem, entry);
    MarkedVa((oldsz + (n - size) * PGSIZE) / PGSIZE, mems[n - size], order, size);
    MarkedSize(entry, order, size);
    if size < 512 {
      MarkedSum(entry, order, size);
      assert RunRecord(Marked(entry, order, size), oldsz, mems, n - size, size, order);
    } else {
      UnbrokenFirst(mems, n - size, size);
    }
  }

  lemma UnbrokenFirst(mems: seq<nat>, i: nat, n: nat)
    requires Unbroken(mems, i, n) && n >= 512
    ensures !ShortRuns(mems)
  {
    assert Unbroken(mems, i, 512);
  }

  /**
   What uvmalloc records while it maps mems, page by page, from oldsz on: exactly which pages
   the records name, whatever the order of the pages. They name all but the skipped ones, and
   just as mapped, when the recorder never counts to 512; and only then. One run is recorded
   whole.
   */
  method Record(oldsz: nat, mems: seq<nat>) returns (ptds: seq<nat>, pted: seq<nat>)
    requires Mappable(oldsz, mems)
    ensures Recorded(oldsz, mems, |mems|, ptds, pted)
    ensures Told(oldsz, mems, ptds, pted) <==> ShortRuns(mems)
    ensures ShortRuns(mems) ==> Sound(ptds, pted, oldsz, mems)
    ensures forall order :: 0 <= order <= 1 && 1 < |mems| < 512 && IsRun(mems, 0, |mems|, order) ==>
              ptds == [Ptds(oldsz, mems[0], order, |mems|)] && pted == []
    ensures |mems| == 1 ==> ptds == [] && pted == [Pted(oldsz, mems[0], RWXU)]
  {
    hide Covering, Recorded, Told, Recording, Sound, IsRun, AllAdjacent, Ptds, Pted, PackPpn, PackVa, PteOf;
    hide ShortRuns, Marked;
    ptds, pted := [], [];
    var size: nat, order: nat, bmem: nat, entry: nat := 0, 0, 0, 0;
    RecordStart(oldsz, mems);
    CoverStart(oldsz, mems);
    var n := 0;
    while n < |mems|
      invariant 0 <= n <= |mems|
      invariant Recording(oldsz, mems, n, size, order, bmem, entry)
      invariant ShortRuns(mems) ==> Sound(ptds, pted, oldsz, mems)
      invariant Covering(oldsz, mems, n, size, ptds, pted)
      invariant AllAdjacent(mems, n) ==> size == n && ptds == [] && pted == []
    {
      LastPage(oldsz, mems, n, size, order, bmem, entry);
      size, order, bmem, entry, ptds, pted := Round(oldsz, mems, n, size, order, bmem, entry, ptds, pted);
      n := n + 1;
    }
    CoveringRun(oldsz, mems, |mems|, size, ptds, pted);
    RecordEnd(oldsz, mems, size, order, bmem, entry, ptds, pted);
    CoverEnd(oldsz, mems, size, order, bmem, entry, ptds, pted);
    forall o: nat | o <= 1 && |mems| > 0 && IsRun(mems, 0, |mems|, o)
      ensures AllAdjacent(mems, |mems|)
      ensures size == |mems| && 1 < size < 512 ==> Marked(entry, order, size) == Ptds(oldsz, mems[0], o, size)
      ensures size == |mems| == 1 ==> entry != 0 && entry + RWXU == Pted(oldsz, mems[0], RWXU)
    {
      SingleRun(oldsz, mems, size, order, bmem, entry, o);
    }
    if |mems| == 1 {
      RunStarts(mems, 0);
      assert IsRun(mems, 0, 1, 0);
    }
    if size > 1 {
      ptds := ptds + [Marked(entry, order, size)];
    } else if entry != 0 {
      pted := pted + [entry + RWXU];
    }
    ToldExact(oldsz, mems, ptds, pted);
  }

  lemma CoveringRun(oldsz: nat, mems: seq<nat>, n: nat, size: nat, ptds: seq<nat>, pted: seq<nat>)
    requires Covering(oldsz, mems, n, size, ptds, pted)
    ensures Unbroken(mems, n - size, size)
  {
  }

  lemma CoverStart(oldsz: nat, mems: seq<nat>)
    ensures Covering(oldsz, mems, 0, 0, [], [])
  {
  }

  lemma CoverEnd(oldsz: nat, mems: seq<nat>, size: nat, order: nat, bmem: nat, entry: nat, ptds: seq<nat>,
                 pted: seq<nat>)
    requires Mappable(oldsz, mems)
    requires Recording(oldsz, mems, |mems|, size, order, bmem, entry) && Covering(oldsz, mems, |mems|, size, ptds, pted)
    ensures size > 1 ==> Recorded(oldsz, mems, |mems|, ptds + [Marked(entry, order, size)], pted)
    ensures size <= 1 && entry != 0 ==> Recorded(oldsz, mems, |mems|, ptds, pted + [entry + RWXU])
    ensures size <= 1 && entry == 0 ==> Recorded(oldsz, mems, |mems|, ptds, pted)
  {
    hide Recorded, PackPpn, PackVa, PteOf, Marked;
    var n := |mems|;
    if size > 1 {
      RunEntry(oldsz, mems, n, size, order, bmem, entry);
      CoverRun(oldsz, mems, n, size, ptds, pted, Marked(entry, order, size));
    } else if entry != 0 {
      CoverLast(oldsz, mems, ptds, pted, entry + RWXU);
    } else if size == 1 {
      EntryNonZero(oldsz, mems, order, bmem, entry);
    }
  }

  lemma CoverLast(oldsz: nat, mems: seq<nat>, ptds: seq<nat>, pted: seq<nat>, e: nat)
    requires Mappable(oldsz, mems) && Covering(oldsz, mems, |mems|, 1, ptds, pted)
    requires e == Pted(oldsz + (|mems| - 1) * PGSIZE, mems[|mems| - 1], RWXU)
    ensures Recorded(oldsz, mems, |mems|, ptds, pted + [e])
  {
    hide NamedRun, NamedPage, NamedOnce, Pted, Adjacent, Kept;
    ShortNotKept(mems, |mems|, 1);
    forall k | 0 <= k < |mems|
      ensures NamedRun(ptds, oldsz, k) <==> Kept(mems, k)
      ensures NamedPage(pted + [e], oldsz, k) <==> Alone(mems, k)
      ensures NamedOnce(ptds, pted + [e], oldsz, k)
    {
      AddPted(ptds, pted, oldsz, mems, e, |mems| - 1, k);
    }
  }

  lemma EntryNonZero(oldsz: nat, mems: seq<nat>, order: nat, bmem: nat, entry: nat)
    requires Recording(oldsz, mems, |mems|, 1, order, bmem, entry) && Distinct(mems)
    ensures entry != 0
  {
    PackedPpn(mems[|mems| - 1]);
  }

  ghost predicate AllAdjacent(mems: seq<nat>, n: nat) {
    n <= |mems| && forall i, j :: 0 <= i < j < n && j == i + 1 ==> Adjacent(mems[i], mems[j])
  }

  lemma RecordStart(oldsz: nat, mems: seq<nat>)
    ensures Recording(oldsz, mems, 0, 0, 0, 0, 0) && Sound([], [], oldsz, mems)
  {
  }

  lemma LastPage(oldsz: nat, mems: seq<nat>, n: nat, size: nat, order: nat, bmem: nat, entry: nat)
    requires Recording(oldsz, mems, n, size, order, bmem, entry) && n < |mems|
    ensures AllAdjacent(mems, n + 1) ==> AllAdjacent(mems, n) && (n == 0 || Adjacent(bmem, mems[n]))
  {
  }

  lemma RecordEnd(oldsz: nat, mems: seq<nat>, size: nat, order: nat, bmem: nat, entry: nat, ptds: seq<nat>,
                  pted: seq<nat>)
    requires Mappable(oldsz, mems) && Recording(oldsz, mems, |mems|, size, order, bmem, entry)
    requires ShortRuns(mems) ==> Sound(ptds, pted, oldsz, mems)
    requires Unbroken(mems, |mems| - size, size)
    ensures size > 1 && ShortRuns(mems) ==> Sound(ptds + [Marked(entry, order, size)], pted, oldsz, mems)
    ensures size <= 1 && entry != 0 && ShortRuns(mems) ==> Sound(ptds, pted + [entry + RWXU], oldsz, mems)
  {
    hide Marked, ShortRuns, PtdsSound;
    if size > 1 {
      RunEntry(oldsz, mems, |mems|, size, order, bmem, entry);
    } else if entry != 0 {
      assert entry + RWXU == Pted(oldsz + (|mems| - 1) * PGSIZE, mems[|mems| - 1], RWXU);
      assert PtedSound(entry + RWXU, oldsz, mems);
    }
  }

  /** At the end of a single run, the entry describes all of it. */
  lemma SingleRun(oldsz: nat, mems: seq<nat>, size: nat, order: nat, bmem: nat, entry: nat, o: nat)
    requires Mappable(oldsz, mems) && Recording(oldsz, mems, |mems|, size, order, bmem, entry)
    requires |mems| > 0 && IsRun(mems, 0, |mems|, o)
    ensures AllAdjacent(mems, |mems|)
    ensures size == |mems| && 1 < size < 512 ==> Marked(entry, order, size) == Ptds(oldsz, mems[0], o, size)
    ensures size == |mems| == 1 ==> entry != 0 && entry + RWXU == Pted(oldsz, mems[0], RWXU)
  {
    hide Marked;
    forall i, j | 0 <= i < j < |mems| && j == i + 1
      ensures Adjacent(mems[i], mems[j])
    {
      assert mems[0 + i] == RunPage(mems[0], o, i) && mems[0 + j] == RunPage(mems[0], o, j);
    }
    if size == |mems| && 1 < size < 512 {
      assert mems[0 + 1] == RunPage(mems[0], o, 1) && mems[0 + 1] == RunPage(mems[0], order, 1);
      assert forall k :: 0 <= k < |mems| - 1 ==> Adjacent(mems[k], mems[k + 1]);
      assert Unbroken(mems, 0, size);
      RunEntry(oldsz, mems, |mems|, size, order, bmem, entry);
    }
    if size == |mems| == 1 {
      PackedPpn(mems[0]);
    }
  }
}
