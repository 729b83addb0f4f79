/**
 The doubly linked ring of buffers of kernel/bio.c, most recently used first, and the
 replacement of a broken buffer in kernel/recovery_handler_buf.c. Node 0 is bcache.head,
 nodes 1 .. NBUF are bcache.buf, and other numbers are buffers from my_kalloc.
 */
module Ring {
  import opened Params
  import opened Sequences
  import BufferCache

  const HEAD := 0

  // ----- links along a path

  predicate Link(link: map<nat, nat>, a: nat, b: nat) { a in link && link[a] == b }

  ghost predicate Forth(next: map<nat, nat>, r: seq<nat>) {
    forall i, j :: 0 <= i < j < |r| && j == i + 1 ==> Link(next, r[i], r[j])
  }

  ghost predicate Back(prev: map<nat, nat>, r: seq<nat>) {
    forall i, j :: 0 <= i < j < |r| && j == i + 1 ==> Link(prev, r[j], r[i])
  }

  lemma ForthAt(next: map<nat, nat>, r: seq<nat>, i: nat)
    requires Forth(next, r) && i + 1 < |r|
    ensures r[i] in next && next[r[i]] == r[i + 1] && r[i] in r
  {
    var j := i + 1;
    assert Link(next, r[i], r[j]);
  }

  lemma BackAt(prev: map<nat, nat>, r: seq<nat>, j: nat)
    requires Back(prev, r) && 0 < j < |r|
    ensures r[j] in prev && prev[r[j]] == r[j - 1] && r[j] in r
  {
    var i := j - 1;
    assert Link(prev, r[j], r[i]);
  }

  /** No node twice, but for the two ends. */
  ghost predicate Simple(r: seq<nat>) {
    && (forall i, j :: 0 <= i < j < |r| - 1 ==> r[i] != r[j])
    && (forall i, j :: 0 < i < j < |r| ==> r[i] != r[j])
  }

  lemma CutForth(next: map<nat, nat>, r: seq<nat>, m: nat)
    requires 0 < m < |r| - 1 && Simple(r) && Forth(next, r)
    ensures Forth(next[r[m - 1] := r[m + 1]], Without(r, m))
  {
    var q := Without(r, m);
    forall i, j | 0 <= i < j < |q| && j == i + 1
      ensures Link(next[r[m - 1] := r[m + 1]], q[i], q[j])
    {
      if i < m - 1 {
        ForthAt(next, r, i);
      } else if i > m - 1 {
        ForthAt(next, r, i + 1);
      } else {
        ForthAt(next, r, m - 1);
      }
    }
  }

  lemma CutBack(prev: map<nat, nat>, r: seq<nat>, m: nat)
    requires 0 < m < |r| - 1 && Simple(r) && Back(prev, r)
    ensures Back(prev[r[m + 1] := r[m - 1]], Without(r, m))
  {
    var q := Without(r, m);
    forall i, j | 0 <= i < j < |q| && j == i + 1
      ensures Link(prev[r[m + 1] := r[m - 1]], q[j], q[i])
    {
      if i < m - 1 {
        BackAt(prev, r, j);
      } else if i > m - 1 {
        BackAt(prev, r, j + 1);
      }
    }
  }

  lemma PutForth(next: map<nat, nat>, r: seq<nat>, m: nat, x: nat)
    requires 0 < m < |r| && Simple(r) && Forth(next, r) && x !in r
    ensures Forth(next[x := r[m]][r[m - 1] := x], With(r, m, x))
  {
    var q, l := With(r, m, x), next[x := r[m]][r[m - 1] := x];
    forall i, j | 0 <= i < j < |q| && j == i + 1
      ensures Link(l, q[i], q[j])
    {
      if i < m - 1 {
        ForthAt(next, r, i);
      } else if i > m {
        ForthAt(next, r, i - 1);
      } else {
        assert r[m - 1] in r;
      }
    }
  }

  lemma PutBack(prev: map<nat, nat>, r: seq<nat>, m: nat, x: nat)
    requires 0 < m < |r| && Simple(r) && Back(prev, r) && x !in r
    ensures Back(prev[x := r[m - 1]][r[m] := x], With(r, m, x))
  {
    var q, l := With(r, m, x), prev[x := r[m - 1]][r[m] := x];
    forall i, j | 0 <= i < j < |q| && j == i + 1
      ensures Link(l, q[j], q[i])
    {
      if i < m - 1 {
        BackAt(prev, r, j);
      } else if i > m {
        BackAt(prev, r, j - 1);
      } else {
        assert r[m] in r;
      }
    }
  }

  // ----- the ring

  /** Around the ring, from the head back to it. */
  function Path(order: seq<nat>): (r: seq<nat>)
    ensures |r| == |order| + 2 && r[0] == HEAD && r[|order| + 1] == HEAD
  {
    [HEAD] + order + [HEAD]
  }

  ghost predicate Nodes(order: seq<nat>) {
    && (forall i :: 0 <= i < |order| ==> order[i] != HEAD)
    && (forall i, j :: 0 <= i < j < |order| ==> order[i] != order[j])
  }

  /** next and prev link the head and the buffers of order into one ring. */
  ghost predicate Linked(next: map<nat, nat>, prev: map<nat, nat>, order: seq<nat>) {
    Nodes(order) && Forth(next, Path(order)) && Back(prev, Path(order))
  }

  lemma PathSimple(order: seq<nat>)
    requires Nodes(order)
    ensures Simple(Path(order))
  {
    var r := Path(order);
    assert forall i :: 0 < i <= |order| ==> r[i] == order[i - 1];
  }

  lemma PathAt(order: seq<nat>, i: nat)
    requires i <= |order| + 1
    ensures Path(order)[i] == if 0 < i <= |order| then order[i - 1] else HEAD
  {
  }

  lemma PathWithout(order: seq<nat>, k: nat)
    requires k < |order|
    ensures Path(Without(order, k)) == Without(Path(order), k + 1)
  {
    var a, b := Path(Without(order, k)), Without(Path(order), k + 1);
    forall i: nat | i < |a|
      ensures a[i] == b[i]
    {
      PathAt(Without(order, k), i);
      PathAt(order, i);
      PathAt(order, i + 1);
    }
  }

  lemma PathWith(order: seq<nat>, k: nat, x: nat)
    requires k <= |order|
    ensures Path(With(order, k, x)) == With(Path(order), k + 1, x)
  {
    var a, b := Path(With(order, k, x)), With(Path(order), k + 1, x);
    forall i: nat | i < |a|
      ensures a[i] == b[i]
    {
      PathAt(With(order, k, x), i);
      if i <= |order| + 1 { PathAt(order, i); }
      if i > 0 { PathAt(order, i - 1); }
    }
  }

  lemma PathIn(order: seq<nat>, x: nat)
    ensures x in Path(order) <==> x == HEAD || x in order
  {
  }

  lemma NodesWith(order: seq<nat>, k: nat, x: nat)
    requires Nodes(order) && k <= |order| && x != HEAD && x !in order
    ensures Nodes(With(order, k, x))
  {
    assert forall i :: 0 <= i < |order| ==> order[i] in order;
  }

  lemma Remove(next: map<nat, nat>, prev: map<nat, nat>, order: seq<nat>, k: nat)
    requires Linked(next, prev, order) && k < |order|
    ensures var r := Path(order); Linked(next[r[k] := r[k + 2]], prev[r[k + 2] := r[k]], Without(order, k))
  {
    PathSimple(order);
    PathWithout(order, k);
    hide Forth, Back, Path, Simple, Without;
    CutForth(next, Path(order), k + 1);
    CutBack(prev, Path(order), k + 1);
  }

  lemma Insert(next: map<nat, nat>, prev: map<nat, nat>, order: seq<nat>, k: nat, x: nat)
    requires Linked(next, prev, order) && k <= |order| && x != HEAD && x !in order
    ensures var r := Path(order);
            Linked(next[x := r[k + 1]][r[k] := x], prev[x := r[k]][r[k + 1] := x], With(order, k, x))
  {
    PathSimple(order);
    PathWith(order, k, x);
    PathIn(order, x);
    NodesWith(order, k, x);
    hide Forth, Back, Path, Simple, Nodes, With;
    PutForth(next, Path(order), k + 1, x);
    PutBack(prev, Path(order), k + 1, x);
  }

  /** What a node's links say. */
  lemma Neighbours(next: map<nat, nat>, prev: map<nat, nat>, order: seq<nat>, k: nat)
    requires Linked(next, prev, order) && k <= |order|
    ensures var r := Path(order);
            r[k] in next && next[r[k]] == r[k + 1] && r[k + 1] in prev && prev[r[k + 1]] == r[k]
  {
    ForthAt(next, Path(order), k);
    BackAt(prev, Path(order), k + 1);
  }

  /** The links, and the order they are meant to put the buffers in. */
  datatype Links = Links(next: map<nat, nat>, prev: map<nat, nat>, order: seq<nat>) {
    ghost predicate Valid() { Linked(next, prev, order) }
  }

  /** Every node of bcache has both links. */
  ghost predicate Whole(a: Links) { forall b: nat :: b <= NBUF ==> b in a.next && b in a.prev }

  /**
   The surgery for the broken buffer at position k: the two nodes found last are joined, and
   the clean buffer goes in before the head.
   */
  ghost predicate Surgery(a: Links, k: nat, clean: nat, b: Links)
    requires Whole(a) && k < |a.order|
  {
    var p, n := Seen(a.next, a.order[k], NBUF), Seen(a.prev, a.order[k], NBUF);
    && 0 <= p && 0 <= n
    && var next, prev := a.next[p := n], a.prev[n := p];
    && HEAD in prev
    && b.next == next[clean := HEAD][prev[HEAD] := clean]
    && b.prev == prev[clean := prev[HEAD]][HEAD := clean]
    && b.order == Without(a.order, k) + [clean]
  }

  class Ring {
    var next: map<nat, nat>
    var prev: map<nat, nat>
    ghost var order: seq<nat>

    ghost predicate Valid()
      reads this
    {
      Linked(next, prev, order)
    }

    ghost function Now(): Links
      reads this
    {
      Links(next, prev, order)
    }

    /** Link b in behind the head. */
    method PushFront(b: nat)
      requires Valid() && b != HEAD && b !in order
      modifies this
      ensures Valid() && order == [b] + old(order)
    {
      hide Linked;
      Insert(next, prev, order, 0, b);
      Neighbours(next, prev, order, 0);
      Ends(order);
      assert With(order, 0, b) == [b] + order;
      next := next[b := next[HEAD]];
      prev := prev[b := HEAD];
      prev := prev[next[HEAD] := b];
      next := next[HEAD := b];
      order := [b] + order;
    }

    /** binit: the buffers in one ring, the last of the array in front. */
    constructor ()
      ensures Valid() && |order| == NBUF && forall k :: 0 <= k < NBUF ==> order[k] == NBUF - k
    {
      next, prev := map[HEAD := HEAD], map[HEAD := HEAD];
      order := [];
      new;
      assert Valid() by { EmptyRing(); }
      var b := 1;
      while b <= NBUF
        invariant 1 <= b <= NBUF + 1 && Valid() && |order| == b - 1
        invariant forall k :: 0 <= k < |order| ==> order[k] == b - 1 - k
      {
        PushFront(b);
        b := b + 1;
      }
    }

    /** brelse's relinking of a buffer whose last reference went. */
    method ToFront(b: nat, ghost k: nat)
      requires Valid() && k < |order| && order[k] == b
      modifies this
      ensures Valid() && order == BufferCache.MoveToFront(old(order), k)
      ensures order[0] == b && order[1..] == old(order)[..k] + old(order)[k + 1..] && |order| == |old(order)|
    {
      BufferCache.FrontIs(order, k);
      Unhook(b, k);
      assert [b] + order == BufferCache.MoveToFront(old(order), k);
      PushFront(b);
    }

    /** b->next->prev = b->prev; b->prev->next = b->next */
    method Unhook(b: nat, ghost k: nat)
      requires Valid() && k < |order| && order[k] == b
      modifies this
      ensures Valid() && order == Without(old(order), k) && b !in order && b != HEAD
    {
      Neighbours(next, prev, order, k);
      Neighbours(next, prev, order, k + 1);
      Gone(order, k);
      hide Linked;
      Remove(next, prev, order, k);
      prev := prev[next[b] := prev[b]];
      next := next[prev[b] := next[b]];
      order := Without(order, k);
    }

    /** The last of the head and bcache.buf to point to the broken buffer forward, and backward; NULL for none. */
    method FindNeighbours(broken: nat) returns (p: int, n: int)
      requires forall b: nat :: b <= NBUF ==> b in next && b in prev
      ensures p == Seen(next, broken, NBUF) && n == Seen(prev, broken, NBUF)
    {
      p, n := NULL, NULL;
      if next[HEAD] == broken { p := HEAD; }
      if prev[HEAD] == broken { n := HEAD; }
      var b: nat := 1;
      while b <= NBUF
        invariant 1 <= b <= NBUF + 1
        invariant p == Seen(next, broken, b - 1) && n == Seen(prev, broken, b - 1)
      {
        if next[b] == broken { p := b; }
        if prev[b] == broken { n := b; }
        b := b + 1;
      }
    }

    /**
     The ring surgery of recovery_handler_buf, which reads the links of the head and of every
     buffer in bcache.buf: also those of the broken one, which may hold anything, and those of
     buffers that were replaced before and left the ring. The new buffer goes to the least
     recently used end and the others keep their order exactly if no buffer of the array with
     a higher index than a neighbour of the broken one points to it too, and both neighbours
     are in the array. A null pointer is followed exactly when nothing there points to it.
     */
    method Replace(ghost next0: map<nat, nat>, ghost prev0: map<nat, nat>, broken: nat, clean: nat, ghost k: nat)
      returns (ok: bool)
      requires Linked(next0, prev0, order) && k < |order| && order[k] == broken && clean > NBUF && clean !in order
      requires Kept(next0, next, broken) && Kept(prev0, prev, broken)
      modifies this
      ensures ok <==> Points(old(next), broken) && Points(old(prev), broken)
      ensures old(Whole(Now())) && (ok ==> Surgery(old(Now()), k, clean, Now()))
      ensures ok ==>
                (Valid() <==>
                   Last(old(next), broken, Path(old(order))[k]) && Last(old(prev), broken, Path(old(order))[k + 2]))
      ensures ok && Valid() && broken <= NBUF ==>
                Link(next, broken, old(next)[broken]) && Link(prev, broken, old(prev)[broken])
      ensures forall b: nat :: b <= NBUF ==> b in next && b in prev
    {
      var p, n := FindNeighbours(broken);
      SeenIs(next, broken, NBUF);
      SeenIs(prev, broken, NBUF);
      if p == NULL || n == NULL { return false; }
      ghost var r, next1, prev1 := Path(order), next, prev;
      AtNeighbours(next0, prev0, next, prev, order, k);
      if p == r[k] && n == r[k + 2] {
        Bypass(next0, prev0, next, prev, order, k);
      } else {
        WrongRing(next0, prev0, next, prev, order, k, p, n, clean);
      }
      NotItself(next0, prev0, prev, order, k);
      hide Linked, Path, Kept, Points, Last;
      next := next[p := n];
      prev := prev[n := p];
      order := Without(order, k);
      WithoutIn(old(order), k);
      Append(clean);
      ok := true;
    }

    /** The new buffer goes in before the head. */
    method Append(b: nat)
      requires HEAD in prev
      modifies this
      ensures order == old(order) + [b]
      ensures next == old(next)[b := HEAD][old(prev)[HEAD] := b] && prev == old(prev)[b := old(prev)[HEAD]][HEAD := b]
      ensures old(Valid()) && b != HEAD && b !in old(order) ==> Valid()
    {
      hide Linked;
      if Valid() && b != HEAD && b !in order {
        var m := |order|;
        Insert(next, prev, order, m, b);
        Neighbours(next, prev, order, m);
        Ends(order);
        assert With(order, m, b) == order + [b];
      }
      next := next[b := HEAD];
      prev := prev[b := prev[HEAD]];
      next := next[prev[HEAD] := b];
      prev := prev[HEAD := b];
      order := order + [b];
    }
  }

  const NULL := -1

  /** The last of nodes 0 .. n whose link is x. */
  function Seen(link: map<nat, nat>, x: nat, n: nat): int
    requires forall b: nat :: b <= n ==> b in link
  {
    if link[n] == x then n else if n == 0 then NULL else Seen(link, x, n - 1)
  }

  /** Some node of the head and bcache.buf points to x. */
  ghost predicate Points(link: map<nat, nat>, x: nat) { exists b: nat :: b <= NBUF && Link(link, b, x) }

  /** Node a is the last of them that does. */
  ghost predicate Last(link: map<nat, nat>, x: nat, a: nat) {
    a <= NBUF && forall b: nat :: a < b <= NBUF ==> !Link(link, b, x)
  }

  lemma {:induction false} SeenIs(link: map<nat, nat>, x: nat, n: nat)
    requires forall b: nat :: b <= n ==> b in link
    ensures NULL <= Seen(link, x, n) <= n
    ensures Seen(link, x, n) != NULL ==> Link(link, Seen(link, x, n), x)
    ensures forall b: nat :: Seen(link, x, n) < b <= n ==> !Link(link, b, x)
  {
    if link[n] != x && n > 0 {
      SeenIs(link, x, n - 1);
    }
  }

  /** link is link0 but for the broken node's own entry, and nodes of the array that left the ring have one too. */
  ghost predicate Kept(link0: map<nat, nat>, link: map<nat, nat>, broken: nat) {
    && (forall b: nat :: b <= NBUF ==> b in link)
    && (forall b {:trigger link[b]} {:trigger b in link} :: b in link0 && b != broken ==>
          b in link && link[b] == link0[b])
  }

  lemma Ends(order: seq<nat>)
    ensures Path(order)[0] == HEAD && Path(order)[|order| + 1] == HEAD
    ensures Path(order)[|order|] != HEAD ==> order != [] && Path(order)[|order|] == order[|order| - 1]
  {
  }

  lemma EmptyRing()
    ensures Linked(map[HEAD := HEAD], map[HEAD := HEAD], [])
  {
  }

  lemma Gone(order: seq<nat>, k: nat)
    requires Nodes(order) && k < |order|
    ensures order[k] != HEAD && order[k] !in Without(order, k) && Nodes(Without(order, k))
    ensures Path(order)[k + 1] == order[k]
  {
  }

  lemma NotItself(next0: map<nat, nat>, prev0: map<nat, nat>, prev: map<nat, nat>, order: seq<nat>, k: nat)
    requires Linked(next0, prev0, order) && k < |order| && Kept(prev0, prev, order[k])
    ensures order[k] != HEAD && Path(order)[k] != order[k] && Path(order)[k + 2] != order[k] && HEAD in prev
    ensures prev[HEAD] == order[k] ==> Path(order)[k + 2] == HEAD
  {
    HeadLast(next0, prev0, prev, order, k);
    OnPath(order, k);
    Gone(order, k);
    PathSimple(order);
  }

  /** The only node on the ring whose next is element k comes just before it, and so for prev. */
  lemma OnlyNeighbour(next: map<nat, nat>, prev: map<nat, nat>, order: seq<nat>, k: nat, b: nat)
    requires Linked(next, prev, order) && k < |order| && (b == HEAD || b in order)
    ensures Link(next, b, order[k]) <==> b == Path(order)[k]
    ensures Link(prev, b, order[k]) <==> b == Path(order)[k + 2]
  {
    var r := Path(order);
    PathSimple(order);
    Neighbours(next, prev, order, k);
    Neighbours(next, prev, order, k + 1);
    assert r[k + 1] == order[k];
    if b == HEAD {
      Neighbours(next, prev, order, 0);
      Neighbours(next, prev, order, |order|);
    } else {
      var a :| 0 <= a < |order| && order[a] == b;
      assert r[a + 1] == b;
      Neighbours(next, prev, order, a + 1);
      Neighbours(next, prev, order, a);
    }
  }

  /** Nothing outside the ring points to the broken node, and it does not point to itself. */
  ghost predicate NoStale(link: map<nat, nat>, order: seq<nat>, broken: nat) {
    forall b: nat :: b <= NBUF && Link(link, b, broken) ==> b == HEAD || (b in order && b != broken)
  }

  /** Without such links the surgery is right unless a neighbour lies outside the array. */
  lemma NothingStale(next0: map<nat, nat>, prev0: map<nat, nat>, next: map<nat, nat>, prev: map<nat, nat>,
                     order: seq<nat>, k: nat)
    requires Linked(next0, prev0, order) && k < |order|
    requires Kept(next0, next, order[k]) && Kept(prev0, prev, order[k])
    requires NoStale(next, order, order[k]) && NoStale(prev, order, order[k])
    ensures Points(next, order[k]) <==> Path(order)[k] <= NBUF
    ensures Points(prev, order[k]) <==> Path(order)[k + 2] <= NBUF
    ensures Path(order)[k] <= NBUF ==> Last(next, order[k], Path(order)[k])
    ensures Path(order)[k + 2] <= NBUF ==> Last(prev, order[k], Path(order)[k + 2])
  {
    AtNeighbours(next0, prev0, next, prev, order, k);
    InLinks(next0, prev0, order);
    hide Path, Linked;
    forall b: nat | b <= NBUF
      ensures Link(next, b, order[k]) ==> b == Path(order)[k]
      ensures Link(prev, b, order[k]) ==> b == Path(order)[k + 2]
    {
      if b == HEAD || b in order {
        OnlyNeighbour(next0, prev0, order, k, b);
      }
    }
  }

  lemma InLinks(next: map<nat, nat>, prev: map<nat, nat>, order: seq<nat>)
    requires Linked(next, prev, order)
    ensures forall b: nat :: b == HEAD || b in order ==> b in next && b in prev
  {
    forall b: nat | b == HEAD || b in order
      ensures b in next && b in prev
    {
      if b == HEAD {
        Neighbours(next, prev, order, 0);
        Neighbours(next, prev, order, |order|);
      } else {
        var a :| 0 <= a < |order| && order[a] == b;
        assert Path(order)[a + 1] == b;
        Neighbours(next, prev, order, a + 1);
        Neighbours(next, prev, order, a);
      }
    }
  }

  /**
   Two errors after boot are enough. The first buffer of the ring breaks and is replaced, its
   links still legible: in `one` the ring is whole, but the buffer that left it still points to
   the one after it. Then that one breaks. The search takes the old buffer for the neighbour,
   and the head goes on pointing to the broken one.
   */
  method TwoErrors() returns (r: Ring, ok: bool, ghost boot: Links, ghost one: Links)
    ensures ok && fresh(r)
    ensures boot.Valid() && |boot.order| == NBUF && forall k :: 0 <= k < NBUF ==> boot.order[k] == NBUF - k
    ensures Whole(boot) && Surgery(boot, 0, NBUF + 1, one) && one.Valid() && one.order[0] == NBUF - 1
    ensures Whole(one) && NBUF !in one.order && Seen(one.next, NBUF - 1, NBUF) == NBUF
    ensures Surgery(one, 0, NBUF + 2, r.Now()) && Link(r.next, HEAD, NBUF - 1) && !r.Valid()
  {
    r := new Ring();
    boot := r.Now();
    AfterBoot(r.next, r.prev, r.order);
    NothingStale(r.next, r.prev, r.next, r.prev, r.order, 0);
    PathAt(r.order, 2);
    hide Linked, Path, Kept, NoStale;
    ok := r.Replace(r.next, r.prev, NBUF, NBUF + 1, 0);
    one := r.Now();
    assert Link(r.next, NBUF, NBUF - 1);
    StillReadable(r.next, r.prev, r.order);
    ok := r.Replace(r.next, r.prev, NBUF - 1, NBUF + 2, 0);
  }

  lemma AfterBoot(next: map<nat, nat>, prev: map<nat, nat>, order: seq<nat>)
    requires Linked(next, prev, order) && |order| == NBUF && forall k :: 0 <= k < NBUF ==> order[k] == NBUF - k
    ensures Kept(next, next, NBUF) && Kept(prev, prev, NBUF) && NoStale(next, order, NBUF) && NoStale(prev, order, NBUF)
    ensures Link(next, NBUF, NBUF - 1) && Path(order)[0] == HEAD && Path(order)[2] == NBUF - 1
  {
    forall b: nat | 0 < b <= NBUF
      ensures b in order
    {
      assert order[NBUF - b] == b;
    }
    InLinks(next, prev, order);
    OnPath(order, 0);
    forall b: nat | b <= NBUF && (Link(next, b, NBUF) || Link(prev, b, NBUF))
      ensures b != NBUF
    {
      OnlyNeighbour(next, prev, order, 0, b);
    }
    Neighbours(next, prev, order, 1);
  }

  /** The second buffer is now the first, with the head before it and the third behind it. */
  lemma StillReadable(next: map<nat, nat>, prev: map<nat, nat>, order: seq<nat>)
    requires Linked(next, prev, order) && |order| == NBUF && order[0] == NBUF - 1 && order[1] == NBUF - 2
    requires forall b: nat :: b <= NBUF ==> b in next && b in prev
    ensures Kept(next, next, NBUF - 1) && Kept(prev, prev, NBUF - 1)
    ensures Path(order)[0] == HEAD && Link(prev, NBUF - 2, NBUF - 1)
    ensures Link(next, HEAD, NBUF - 1) && prev[HEAD] != HEAD
  {
    Neighbours(next, prev, order, 0);
    Neighbours(next, prev, order, 1);
    Neighbours(next, prev, order, NBUF);
    PathAt(order, 2);
  }

  /** The true neighbours point to the broken node. */
  lemma AtNeighbours(next0: map<nat, nat>, prev0: map<nat, nat>, next: map<nat, nat>, prev: map<nat, nat>,
                     order: seq<nat>, k: nat)
    requires Linked(next0, prev0, order) && k < |order|
    requires Kept(next0, next, order[k]) && Kept(prev0, prev, order[k])
    ensures Link(next, Path(order)[k], order[k]) && Link(prev, Path(order)[k + 2], order[k])
  {
    Neighbours(next0, prev0, order, k);
    Neighbours(next0, prev0, order, k + 1);
    OnPath(order, k);
    Gone(order, k);
  }

  /** Joining any other two nodes leaves a ring in which the broken node is still linked. */
  lemma WrongRing(next0: map<nat, nat>, prev0: map<nat, nat>, next: map<nat, nat>, prev: map<nat, nat>,
                  order: seq<nat>, k: nat, p: nat, n: nat, clean: nat)
    requires Linked(next0, prev0, order) && k < |order| && p <= NBUF && n <= NBUF && clean > NBUF && clean !in order
    requires Kept(next0, next, order[k]) && Kept(prev0, prev, order[k])
    requires p != Path(order)[k] || n != Path(order)[k + 2]
    ensures HEAD in prev
    ensures var u, v := next[p := n], prev[n := p];
            !Linked(u[clean := HEAD][v[HEAD] := clean], v[clean := v[HEAD]][HEAD := clean], Without(order, k) + [clean])
  {
    var r, x, q := Path(order), order[k], Path(Without(order, k) + [clean]);
    var u, v := next[p := n], prev[n := p];
    var next', prev' := u[clean := HEAD][v[HEAD] := clean], v[clean := v[HEAD]][HEAD := clean];
    AtNeighbours(next0, prev0, next, prev, order, k);
    HeadLast(next0, prev0, prev, order, k);
    OnPath(order, k);
    Gone(order, k);
    var j := k + 1;
    if p != r[k] {
      assert next'[r[k]] == x;
      assert !Link(next', q[k], q[j]);
    } else if r[k + 2] != HEAD {
      assert prev'[r[k + 2]] == x;
      assert !Link(prev', q[j], q[k]);
    } else {
      assert next'[r[k]] == n;
      assert !Link(next', q[k], q[j]);
    }
  }

  lemma HeadLast(next0: map<nat, nat>, prev0: map<nat, nat>, prev: map<nat, nat>, order: seq<nat>, k: nat)
    requires Linked(next0, prev0, order) && k < |order| && Kept(prev0, prev, order[k])
    ensures HEAD in prev && prev[HEAD] == order[|order| - 1] && Path(order)[k] != order[|order| - 1]
  {
    Neighbours(next0, prev0, order, |order|);
    PathSimple(order);
  }

  lemma OnPath(order: seq<nat>, k: nat)
    requires Nodes(order) && k < |order|
    ensures var p, n := Path(order)[k], Path(order)[k + 2];
            (p == HEAD || p in order) && (n == HEAD || n in order) && p != order[k] && n != order[k]
  {
    var r := Path(order);
    assert k > 0 ==> r[k] == order[k - 1];
    assert k + 1 < |order| ==> r[k + 2] == order[k + 1];
  }

  /** Joining the neighbours leaves the broken node out, whatever its own links hold. */
  lemma Bypass(next0: map<nat, nat>, prev0: map<nat, nat>, next: map<nat, nat>, prev: map<nat, nat>, order: seq<nat>,
               k: nat)
    requires Linked(next0, prev0, order) && k < |order|
    requires Kept(next0, next, order[k]) && Kept(prev0, prev, order[k])
    ensures var r := Path(order); Linked(next[r[k] := r[k + 2]], prev[r[k + 2] := r[k]], Without(order, k))
    ensures forall x :: x in Without(order, k) ==> x in order
  {
    var r, order' := Path(order), Without(order, k);
    Remove(next0, prev0, order, k);
    Gone(order, k);
    var q := Path(order');
    PathIn(order', order[k]);
    WithoutIn(order, k);
    hide Path, Forth, Back, Nodes, Without;
    assert order[k] !in q;
    SameLinks(next0[r[k] := r[k + 2]], next[r[k] := r[k + 2]], prev0[r[k + 2] := r[k]], prev[r[k + 2] := r[k]], q,
        order[k]);
  }

  lemma WithoutIn(s: seq<nat>, k: nat)
    requires k < |s|
    ensures forall x :: x in Without(s, k) ==> x in s
  {
  }

  lemma SameLinks(next0: map<nat, nat>, next: map<nat, nat>, prev0: map<nat, nat>, prev: map<nat, nat>, q: seq<nat>,
                  x: nat)
    requires Forth(next0, q) && Back(prev0, q) && x !in q
    requires forall b :: b in next0 && b != x ==> b in next && next[b] == next0[b]
    requires forall b :: b in prev0 && b != x ==> b in prev && prev[b] == prev0[b]
    ensures Forth(next, q) && Back(prev, q)
  {
    forall i, j | 0 <= i < j < |q| && j == i + 1
      ensures Link(next, q[i], q[j]) && Link(prev, q[j], q[i])
    {
      ForthAt(next0, q, i);
      BackAt(prev0, q, j);
    }
  }
}
