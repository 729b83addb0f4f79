/**
 The kernel's free-page list (kernel/kalloc.c), its mirror in the M-List (kernel/mlist.c) and
 the rebuilding of a broken kmem (kernel/recovery_handlers_MM.c). Pages and M-List nodes are
 numbers; 0 is the null page, and node 0 the header of run_list.
 */
module FreeList {
  import opened Params
  import opened Sequences

  const EMPTY := 0x101_0101_0101_0101
  const PERPAGE := 256   // M-List nodes in a page

  // ----- singly linked lists

  /** From head on, link visits just the elements of s, in order, and ends in 0. */
  ghost predicate Chain(head: nat, link: map<nat, nat>, s: seq<nat>) {
    && (if s == [] then head == 0 else head == s[0])
    && (forall i :: 0 <= i < |s| ==> s[i] in link && s[i] != 0)
    && (forall i, j :: 0 <= i < j < |s| ==> s[i] != s[j])
    && (forall i, j :: 0 <= i < j < |s| && j == i + 1 ==> link[s[i]] == s[j])
    && (s != [] ==> link[s[|s| - 1]] == 0)
  }

  lemma ChainTail(head: nat, link: map<nat, nat>, s: seq<nat>)
    requires Chain(head, link, s) && s != []
    ensures head in link && Chain(link[head], link, s[1..])
  {
    if |s| > 1 {
      assert link[s[0]] == s[1];
    }
  }

  lemma ChainDrop(head: nat, link: map<nat, nat>, s: seq<nat>, n: nat)
    requires Chain(head, link, s) && n < |s|
    ensures Chain(s[n], link, s[n..])
  {
  }

  lemma ChainPush(head: nat, link: map<nat, nat>, s: seq<nat>, x: nat)
    requires Chain(head, link, s) && x !in s && x != 0
    ensures Chain(x, link[x := head], [x] + s)
  {
    var r, l := [x] + s, link[x := head];
    forall i, j | 0 <= i < j < |r| && j == i + 1
      ensures l[r[i]] == r[j]
    {
      if i > 0 {
        assert link[s[i - 1]] == s[j - 1] && s[i - 1] in s;
      }
    }
  }

  /** The list that starts at head ends. */
  ghost predicate Ends(head: nat, link: map<nat, nat>) { exists s :: Chain(head, link, s) }

  /** Linking in an element of a list once more, in front, gives one that does not. */
  lemma NoEnd(head: nat, link: map<nat, nat>, s: seq<nat>, x: nat)
    requires Chain(head, link, s) && x in s
    ensures !Ends(x, link[x := head])
  {
    hide Chain;
    var l := link[x := head];
    var k :| 0 <= k < |s| && s[k] == x;
    if r :| Chain(x, l, r) {
      PagesDistinct(x, l, r);
      Circle(head, link, s, k, r, k);
      assert false;
    }
  }

  lemma {:induction false} Circle(head: nat, link: map<nat, nat>, s: seq<nat>, k: nat, r: seq<nat>, n: nat)
    requires Chain(head, link, s) && n <= k < |s| && Chain(s[k], link[s[k] := head], r)
    ensures n + 1 < |r| && r[0] == s[k] && r[n + 1] == s[n]
  {
    var l := link[s[k] := head];
    if n > 0 {
      Circle(head, link, s, k, r, n - 1);
      var i, j := n - 1, n;
      assert link[s[i]] == s[j] && s[i] != s[k];
      assert l[r[n]] == s[n];
    }
    var i, j := n, n + 1;
    assert l[r[i]] == s[n] != 0;
    assert j < |r|;
    assert l[r[i]] == r[j];
  }

  lemma ChainAppend(head: nat, link: map<nat, nat>, s: seq<nat>, x: nat)
    requires Chain(head, link, s) && x !in s && x != 0 && s != []
    ensures Chain(head, link[x := 0][s[|s| - 1] := x], s + [x])
  {
  }

  lemma ChainFrame(head: nat, link: map<nat, nat>, l: map<nat, nat>, s: seq<nat>)
    requires Chain(head, link, s) && forall x :: x in s ==> x in l && l[x] == link[x]
    ensures Chain(head, l, s)
  {
    assert forall i :: 0 <= i < |s| ==> s[i] in s;
  }

  /** Unlinking element k > 0 from its predecessor. */
  lemma ChainRemove(head: nat, link: map<nat, nat>, s: seq<nat>, k: nat)
    requires Chain(head, link, s) && 0 < k < |s|
    ensures Chain(head, link[s[k - 1] := link[s[k]]], Without(s, k))
  {
    var r, l := Without(s, k), link[s[k - 1] := link[s[k]]];
    assert s[k - 1] != s[k];
    forall i, j | 0 <= i < j < |r| && j == i + 1
      ensures l[r[i]] == r[j]
    {
      if i == k - 1 {
        assert link[s[k]] == s[k + 1];
      } else if i < k - 1 {
        assert link[s[i]] == s[j];
      } else {
        assert link[s[i + 1]] == s[j + 1];
      }
    }
  }

  // ----- the two lists

  /** Where x is in s; |s| if it is not. */
  function IndexOf(s: seq<nat>, x: nat): (k: nat)
    ensures k <= |s| && (k < |s| ==> s[k] == x) && forall i :: 0 <= i < k ==> s[i] != x
  {
    if s == [] || s[0] == x then 0 else 1 + IndexOf(s[1..], x)
  }

  function Drop(s: seq<nat>, x: nat): seq<nat> {
    if IndexOf(s, x) < |s| then Without(s, IndexOf(s, x)) else s
  }

  /** run_list behind header 0 is `nodes`, and every other slot is empty. */
  ghost predicate MList(addr: map<nat, nat>, link: map<nat, nat>, slots: nat, nodes: seq<nat>) {
    && 0 < slots && (forall i :: 0 <= i < slots ==> i in addr && i in link)
    && Chain(link[0], link, nodes) && (forall i :: 0 <= i < |nodes| ==> nodes[i] < slots)
    && (forall i {:trigger addr[i]} :: 0 < i < slots ==> (addr[i] == EMPTY <==> i !in nodes))
  }

  class Memory {
    var next: map<nat, nat>      // r->next of the free pages
    var freelist: nat            // kmem->freelist
    var addr: map<nat, nat>      // the M-List nodes' fields
    var link: map<nat, nat>
    var slots: nat               // nodes 0 .. slots - 1 exist
    ghost var pages: seq<nat>    // the free list
    ghost var nodes: seq<nat>    // run_list
    ghost var tail: seq<nat>     // the page at the end of the free list that was never registered

    /** The addresses in run_list, in order. */
    ghost function Registered(): seq<nat>
      reads this
    {
      Addresses(addr, nodes)
    }

    ghost predicate Lists()
      reads this
    {
      Chain(freelist, next, pages) && MList(addr, link, slots, nodes)
    }

    /** run_list holds the pages of the free list in their order, but for the last one if it was never registered. */
    ghost predicate Mirror()
      reads this
    {
      Lists() && pages == Registered() + tail && |tail| <= 1
    }

    /** delete_memobj on run_list. */
    method DeleteMemobj(address: nat)
      requires Lists()
      modifies this`addr, this`link, this`nodes
      ensures Lists() && 0 in old(addr) && addr[0] == old(addr)[0] && Registered() == Drop(old(Registered()), address)
      ensures var k := IndexOf(old(Registered()), address);
              nodes == if k < |old(nodes)| then Without(old(nodes), k) else old(nodes)
    {
      var bd := 0;
      ghost var k := 0;
      while link[bd] != 0
        invariant 0 <= k <= |nodes| && Lists() && addr == old(addr) && link == old(link) && nodes == old(nodes)
        invariant bd == (if k == 0 then 0 else nodes[k - 1]) && bd in link
        invariant forall i :: 0 <= i < k ==> Registered()[i] != address
        decreases |nodes| - k
      {
        NodeAt(k, bd);
        var d := link[bd];
        if addr[d] == address {
          Unlink(bd, d, k, address);
          return;
        }
        bd := d;
        k := k + 1;
      }
      NodeAt(k, bd);
    }

    lemma NodeAt(k: nat, bd: nat)
      requires Lists() && k <= |nodes| && bd == if k == 0 then 0 else nodes[k - 1]
      ensures 0 in addr && bd in link && (link[bd] == 0 <==> k == |nodes|)
      ensures k < |nodes| ==> link[bd] == nodes[k] && nodes[k] in addr && nodes[k] in link
      ensures k < |nodes| ==> Registered()[k] == addr[nodes[k]]
    {
      if 0 < k < |nodes| {
        assert link[nodes[k - 1]] == nodes[k];
      }
    }

    method Unlink(bd: nat, d: nat, ghost k: nat, ghost address: nat)
      requires Lists() && k < |nodes| && bd == (if k == 0 then 0 else nodes[k - 1]) && d == nodes[k] && bd in link &&
                 d in link
      requires Registered()[k] == address && forall i :: 0 <= i < k ==> Registered()[i] != address
      modifies this`addr, this`link, this`nodes
      ensures Lists() && Registered() == Drop(old(Registered()), address)
      ensures 0 in addr && 0 in old(addr) && addr[0] == old(addr)[0]
      ensures nodes == Without(old(nodes), k) && k == IndexOf(old(Registered()), address)
    {
      hide Chain, MList, Drop;
      UnlinkKeeps(addr, link, slots, nodes, k, bd);
      Dropped(addr, nodes, k, address);
      link := link[bd := link[d]][d := EMPTY];
      addr := addr[d := EMPTY];
      nodes := Without(nodes, k);
    }

    /** Some slot is empty. */
    ghost predicate Room()
      requires Lists()
      reads this
    {
      exists i :: 0 < i < slots && addr[i] == EMPTY
    }

    /** The address sits in front of the first empty slot. */
    ghost predicate Met(address: nat)
      requires Lists()
      reads this
    {
      exists i :: 0 < i < slots && addr[i] == address && forall j :: 0 < j < i ==> addr[j] != EMPTY
    }

    lemma MetRegistered(address: nat)
      requires Lists() && address != EMPTY && Met(address)
      ensures address in Registered()
    {
      SlotUsed(addr, link, slots, nodes);
    }

    /**
     register_memobj on run_list: the address goes to the front, unless it is met before an
     empty slot is. Without either, the list would grow, and my_kalloc's acquire panics since
     kmem->lock is held.
     */
    method RegisterMemobj(address: nat) returns (ok: bool)
      requires Lists() && address != EMPTY
      modifies this`addr, this`link, this`nodes
      ensures ok <==> old(Met(address)) || old(Room())
      ensures Lists()
      ensures ok && !old(Met(address)) ==> Registered() == [address] + old(Registered())
      ensures !ok || old(Met(address)) ==> Registered() == old(Registered()) && nodes == old(nodes)
    {
      hide Chain, MList, Addresses;
      var i := FirstSlot(address);
      ok := i < slots;
      if ok && addr[i] == EMPTY {
        Pushed(addr, link, slots, nodes, i, address);
        addr := addr[i := address];
        link := link[i := link[0]][0 := i];
        nodes := [i] + nodes;
      }
    }

    /** register_memobj's search: the first slot that is empty or holds the address. */
    method FirstSlot(address: nat) returns (i: nat)
      requires Lists() && address != EMPTY
      ensures 0 < i <= slots && (i < slots <==> Met(address) || Room())
      ensures i < slots ==> i in addr && 0 in link && (addr[i] == EMPTY <==> !Met(address))
      ensures i < slots && addr[i] == EMPTY ==> i !in nodes
    {
      hide Chain, Addresses;
      i := 1;
      while i < slots && addr[i] != EMPTY && addr[i] != address
        invariant 1 <= i <= slots
        invariant forall j :: 0 < j < i ==> addr[j] != EMPTY && addr[j] != address
      {
        i := i + 1;
      }
    }

    /**
     kfree: the page goes to the front of the free list and of run_list. It panics on an
     address that is not a page between `end` and PHYSTOP, and when run_list is full, but not
     on a page that is free already: then the free list runs in a circle and never ends.
     */
    method Kfree(pa: nat, end: nat) returns (ok: bool)
      requires Lists() && 0 < end
      modifies this
      ensures ok <==> pa % PGSIZE == 0 && end <= pa < PHYSTOP && (old(Met(pa)) || old(Room()))
      ensures MList(addr, link, slots, nodes) && tail == old(tail)
      ensures Registered() == if ok && !old(Met(pa)) then [pa] + old(Registered()) else old(Registered())
      ensures (ok ==> pa !in old(pages)) <==> Chain(freelist, next, pages)
      ensures !ok ==> pages == old(pages)
      ensures ok && pa !in old(pages) ==> pages == [pa] + old(pages) && (old(Mirror()) ==> Mirror())
      ensures ok && pa in old(pages) ==> freelist == pa && !Ends(freelist, next)
    {
      if pa % PGSIZE != 0 || pa < end || pa >= PHYSTOP { return false; }
      ok := Push(pa);
    }

    /** kfree past its guard. */
    method Push(pa: nat) returns (ok: bool)
      requires Lists() && pa != 0 && pa != EMPTY
      modifies this
      ensures ok <==> old(Met(pa)) || old(Room())
      ensures MList(addr, link, slots, nodes) && tail == old(tail)
      ensures Registered() == if ok && !old(Met(pa)) then [pa] + old(Registered()) else old(Registered())
      ensures !ok ==> Chain(freelist, next, pages) && pages == old(pages)
      ensures ok && pa !in old(pages) ==>
                Chain(freelist, next, pages) && pages == [pa] + old(pages) && (old(Mirror()) ==> Mirror())
      ensures ok && pa in old(pages) ==> freelist == pa && !Ends(freelist, next)
    {
      hide MList, Drop, Addresses, Chain, Met, Room, Ends;
      ghost var reg, last := Registered(), tail;
      if Met(pa) { MetRegistered(pa); }
      ok := RegisterMemobj(pa);
      if ok {
        if pa in pages {
          NoEnd(freelist, next, pages, pa);
        } else {
          ChainPush(freelist, next, pages, pa);
        }
        next := next[pa := freelist];
        freelist := pa;
        pages := if pa in pages then pages else [pa] + pages;
      }
      assert [pa] + (reg + last) == [pa] + reg + last;
    }

    /** kalloc: the first page of the free list, or 0 when it is empty. */
    method Kalloc() returns (r: nat)
      requires Lists() && EMPTY !in pages
      modifies this
      ensures Lists() && slots == old(slots) && next == old(next) && (r == 0 <==> old(pages) == [])
      ensures r == 0 ==> pages == old(pages) && Registered() == old(Registered()) && tail == old(tail)
      ensures r != 0 ==> r == old(pages)[0] && pages == old(pages)[1..] && Registered() == Drop(old(Registered()), r)
      ensures r != 0 && old(nodes) != [] && old(Registered())[0] == r ==> nodes == old(nodes)[1..]
      ensures old(Mirror()) ==> Mirror()
    {
      hide MList, Drop, Chain, Addresses, Without, IndexOf;
      r := freelist;
      HeadIs(freelist, next, pages);
      if r != 0 {
        ghost var all, reg, last, same := pages, Registered(), tail, Mirror();
        ChainTail(freelist, next, pages);
        freelist := next[r];
        pages := pages[1..];
        if reg == [] { tail := []; }
        if same { DropFirst(reg, all, last, r); }
        DeleteMemobj(r);
      }
    }

    /**
     my_kalloc of one page other than `avoid`: the first page of the free list, or the second
     if the first is the one to avoid. The recovery handlers pass 0; then an empty list counts
     as a first page to avoid, and a null pointer is followed.
     */
    method MyKalloc(avoid: nat) returns (ok: bool, r: nat)
      requires Lists() && EMPTY !in pages
      modifies this
      ensures ok <==> avoid != 0 || old(pages) != []
      ensures Lists() && (ok && avoid == 0 ==> r != 0) && (avoid != 0 ==> r != avoid)
      ensures !ok || r == 0 ==> pages == old(pages) && Registered() == old(Registered())
      ensures ok ==>
                var at := if old(pages) != [] && old(pages)[0] == avoid then 1 else 0;
                && (r == 0 <==> |old(pages)| <= at)
                && (r != 0 ==>
                      && r == old(pages)[at] && pages == Without(old(pages), at)
                      && Registered() == Drop(old(Registered()), r))
      ensures old(Mirror()) ==> Mirror()
    {
      hide MList, Drop, Addresses, Chain;
      ghost var at;
      ok, r, at := TakePage(avoid);
      if ok && r != 0 {
        PagesDistinct(old(freelist), old(next), old(pages));
        if |Registered()| <= at { tail := []; }
        if old(Mirror()) {
          DropAt(Registered(), old(pages), old(tail), at);
        }
        DeleteMemobj(r);
      }
    }

    /** my_kalloc's part on the free list. */
    method TakePage(avoid: nat) returns (ok: bool, r: nat, ghost at: nat)
      requires Chain(freelist, next, pages)
      modifies this`next, this`freelist, this`pages
      ensures ok <==> avoid != 0 || old(pages) != []
      ensures Chain(freelist, next, pages) && (avoid != 0 ==> r != avoid)
      ensures at == if old(pages) != [] && old(pages)[0] == avoid then 1 else 0
      ensures ok ==> (r == 0 <==> |old(pages)| <= at)
      ensures !ok || r == 0 ==> pages == old(pages)
      ensures ok && r != 0 ==> r == old(pages)[at] && pages == Without(old(pages), at)
      ensures ok && avoid == 0 ==> at == 0
    {
      r := freelist;
      at := 0;
      if r == avoid {
        if freelist == 0 { return false, 0, 0; }   // kmem->freelist->next with no first page
        FirstAndSecond(freelist, next, pages);
        hide Chain;
        at := 1;
        r := next[freelist];
        if r != 0 {
          ChainRemove(freelist, next, pages, 1);
          next := next[freelist := next[r]];
          pages := Without(pages, 1);
        }
      } else if r != 0 {
        ChainTail(freelist, next, pages);
        freelist := next[r];
        assert Without(pages, 0) == pages[1..];
        pages := pages[1..];
      }
      ok := true;
    }

    /**
     init_run_list: every free page but the last is registered, in order. The pages taken
     for more M-List nodes on the way come off the front of both lists.
     */
    method InitRunList()
      requires Lists() && nodes == [] && pages != [] && slots == PERPAGE - 1 && EMPTY !in pages
      modifies this
      ensures Mirror() && |tail| == 1
      ensures exists n: nat :: n < |old(pages)| && pages == old(pages)[n..] && tail == [old(pages)[|old(pages)| - 1]]
    {
      hide MList, Chain, Drop, Addresses;
      ghost var all, taken := pages, 0;
      ghost var k := 0;
      FirstPage(freelist, next, pages);
      var r, brnode, rnode: nat, i: nat := freelist, 0, 1, 1;
      AllEmpty(addr, link, slots);
      while next[r] != 0
        invariant Lists() && EMPTY !in pages && k < |pages| && r == pages[k] && r in next
        invariant 0 <= taken < |all| && pages == all[taken..]
        invariant |nodes| == k && Registered() == pages[..k] && brnode == (if k == 0 then 0 else nodes[k - 1])
        invariant i < PERPAGE && i <= k + 1 && rnode + (PERPAGE - 1 - i) == slots && rnode > 0
        invariant forall j :: rnode <= j < slots ==> j !in nodes
        decreases |pages| - k
      {
        Follows(freelist, next, pages, k);
        if i == PERPAGE - 1 {
          k := Grow(k, brnode);
          taken := taken + 1;
          rnode, i := slots - (PERPAGE - 1), 0;
        }
        AppendNode(rnode, brnode, r, k);
        assert pages[..k] + [r] == pages[..k + 1];
        Follows(freelist, next, pages, k);
        r, brnode := next[r], rnode;
        rnode, i, k := rnode + 1, i + 1, k + 1;
      }
      Follows(freelist, next, pages, k);
      tail := pages[k..];
      assert pages == pages[..k] + pages[k..];
      assert pages[k..] == [all[|all| - 1]];
    }

    /** A page for more nodes: kalloc takes the first page off both lists. */
    method Grow(ghost k: nat, ghost brnode: nat) returns (ghost k': nat)
      requires Lists() && EMPTY !in pages && 2 <= k < |pages| && |nodes| == k && Registered() == pages[..k] &&
                 brnode == nodes[k - 1]
      modifies this
      ensures Lists() && k' == k - 1 && pages == old(pages)[1..] && |nodes| == k' && Registered() == pages[..k'] &&
                brnode == nodes[k' - 1]
      ensures slots == old(slots) + PERPAGE - 1 && forall j :: old(slots) <= j < slots ==> j !in nodes
      ensures next == old(next)
    {
      hide MList, Chain, Drop;
      ghost var reg, all := Registered(), pages;
      var page := Kalloc();
      assert reg[0] == all[0];
      DropFirst(reg, reg, [], page);
      assert Registered() == reg[1..] == pages[..k - 1];
      MoreSlots(addr, link, slots, nodes, PERPAGE - 1);
      addr, link, slots := addr + Slots(slots, PERPAGE - 1), link + Slots(slots, PERPAGE - 1), slots + PERPAGE - 1;
      k' := k - 1;
    }

    /** rnode, for page r, goes in behind brnode, the end of the list. */
    method AppendNode(rnode: nat, brnode: nat, r: nat, ghost k: nat)
      requires Lists() && |nodes| == k && brnode == (if k == 0 then 0 else nodes[k - 1]) && 0 < rnode < slots &&
                 rnode !in nodes && r != EMPTY
      modifies this`addr, this`link, this`nodes
      ensures Lists() && nodes == old(nodes) + [rnode] && Registered() == old(Registered()) + [r]
    {
      hide MList, Chain, Addresses;
      NodeAt(k, brnode);
      Appended(addr, link, slots, nodes, rnode, brnode, r);
      addr := addr[rnode := r];
      link := link[rnode := link[brnode]];
      link := link[brnode := rnode];
      nodes := nodes + [rnode];
    }

    /**
     recovery_handler_kmem's surgery: the first page becomes the new kmem, and the free list
     starts at the third. What remains is a suffix of the old free list without the new kmem;
     run_list keeps the second page too, which is lost. With fewer than three pages registered
     the free list starts at whatever run_list's header holds as its own address, and with none
     the new kmem is there too.
     */
    method RecoverKmem() returns (ok: bool, kmem: nat)
      requires Mirror() && EMPTY !in pages
      modifies this
      ensures kmem == (if old(nodes) == [] then old(addr)[0] else old(pages)[0]) && (ok <==> kmem != 0)
      ensures MList(addr, link, slots, nodes) && tail == old(tail)
      ensures ok && old(nodes) != [] ==> Registered() == old(Registered())[1..]
      ensures ok && |old(nodes)| < 3 ==> freelist == old(addr)[0]
      ensures |old(nodes)| >= 3 ==>
                && ok && Lists() && kmem !in pages && kmem !in Registered()
                && pages == old(pages)[2..] && Registered() + tail == [old(pages)[1]] + pages
    {
      hide MList, Drop, Chain, Addresses, Without, IndexOf;
      ghost var all, reg := pages, Registered();
      PagesDistinct(freelist, next, pages);
      HeadIs(freelist, next, pages);
      NodeAt(0, 0);
      kmem := addr[link[0]];
      if kmem == 0 { return false, 0; }
      ok := true;
      if reg != [] { DropFirst(reg, all, tail, kmem); }
      DeleteMemobj(kmem);
      assert reg != [] ==> Registered() == reg[1..];
      NodeAt(0, 0);
      if |nodes| > 0 { NodeAt(1, link[0]); }
      if |reg| >= 3 {
        FirstGone(all, reg, tail);
        assert addr[link[link[0]]] == all[2];
        ChainDrop(freelist, next, pages, 2);
        pages := pages[2..];
      }
      freelist := addr[link[link[0]]];
    }
  }

  function Addresses(addr: map<nat, nat>, nodes: seq<nat>): (r: seq<nat>)
    ensures |r| == |nodes| && forall i :: 0 <= i < |r| ==> r[i] == if nodes[i] in addr then addr[nodes[i]] else 0
  {
    seq(|nodes|, i requires 0 <= i < |nodes| => if nodes[i] in addr then addr[nodes[i]] else 0)
  }

  lemma WithoutMembers(s: seq<nat>, k: nat)
    requires k < |s| && forall i, j :: 0 <= i < j < |s| ==> s[i] != s[j]
    ensures forall x {:trigger x in Without(s, k)} :: x in Without(s, k) <==> x in s && x != s[k]
  {
    var r := Without(s, k);
    forall x
      ensures x in r <==> x in s && x != s[k]
    {
      if x in s && x != s[k] {
        var i :| 0 <= i < |s| && s[i] == x;
        assert r[if i < k then i else i - 1] == x;
      }
    }
  }

  /** Node k leaves the list behind header 0. */
  lemma Unlinked(link: map<nat, nat>, nodes: seq<nat>, k: nat, bd: nat)
    requires 0 in link && Chain(link[0], link, nodes) && k < |nodes| && bd == if k == 0 then 0 else nodes[k - 1]
    ensures nodes[k] in link && bd in link
    ensures var l := link[bd := link[nodes[k]]][nodes[k] := EMPTY];
            0 in l && Chain(l[0], l, Without(nodes, k))
    ensures forall x {:trigger x in Without(nodes, k)} :: x in Without(nodes, k) <==> x in nodes && x != nodes[k]
  {
    PagesDistinct(link[0], link, nodes);
    WithoutMembers(nodes, k);
    if k == 0 {
      UnlinkedFirst(link, nodes);
    } else {
      UnlinkedLater(link, nodes, k);
    }
  }

  lemma UnlinkedFirst(link: map<nat, nat>, nodes: seq<nat>)
    requires 0 in link && nodes != [] && Chain(link[0], link, nodes)
    ensures nodes[0] in link
    ensures var l := link[0 := link[nodes[0]]][nodes[0] := EMPTY];
            0 in l && Chain(l[0], l, Without(nodes, 0))
  {
    ZeroNotIn(link[0], link, nodes);
    ChainTail(link[0], link, nodes);
    PagesDistinct(link[0], link, nodes);
    WithoutMembers(nodes, 0);
    HeadIs(link[0], link, nodes);
    hide Chain;
    var r, d := Without(nodes, 0), nodes[0];
    assert r == nodes[1..] && d != 0;
    ChainFrame(link[d], link, link[0 := link[d]][d := EMPTY], r);
  }

  lemma UnlinkedLater(link: map<nat, nat>, nodes: seq<nat>, k: nat)
    requires 0 in link && 0 < k < |nodes| && Chain(link[0], link, nodes)
    ensures nodes[k] in link && nodes[k - 1] in link
    ensures var l := link[nodes[k - 1] := link[nodes[k]]][nodes[k] := EMPTY];
            0 in l && Chain(l[0], l, Without(nodes, k))
  {
    ZeroNotIn(link[0], link, nodes);
    PagesDistinct(link[0], link, nodes);
    WithoutMembers(nodes, k);
    ChainRemove(link[0], link, nodes, k);
    Follows(link[0], link, nodes, k);
    Follows(link[0], link, nodes, k - 1);
    hide Chain;
    var r, d := Without(nodes, k), nodes[k];
    assert d in nodes && nodes[k - 1] in nodes;
    ChainFrame(link[0], link[nodes[k - 1] := link[d]], link[nodes[k - 1] := link[d]][d := EMPTY], r);
  }

  lemma UnlinkKeeps(addr: map<nat, nat>, link: map<nat, nat>, slots: nat, nodes: seq<nat>, k: nat, bd: nat)
    requires MList(addr, link, slots, nodes) && k < |nodes| && bd == if k == 0 then 0 else nodes[k - 1]
    ensures nodes[k] in link && bd in link && nodes[k] != 0 && 0 in addr
    ensures forall i, j :: 0 <= i < j < |nodes| ==> nodes[i] != nodes[j]
    ensures MList(addr[nodes[k] := EMPTY], link[bd := link[nodes[k]]][nodes[k] := EMPTY], slots, Without(nodes, k))
  {
    hide Chain, Without;
    PagesDistinct(link[0], link, nodes);
    ZeroNotIn(link[0], link, nodes);
    Unlinked(link, nodes, k, bd);
    UnlinkedSlots(addr, slots, nodes, k);
    assert nodes[k] in nodes;
    var a, l := addr[nodes[k] := EMPTY], link[bd := link[nodes[k]]][nodes[k] := EMPTY];
    assert forall i :: 0 <= i < slots ==> i in a && i in l;
  }

  lemma UnlinkedSlots(addr: map<nat, nat>, slots: nat, nodes: seq<nat>, k: nat)
    requires k < |nodes| && (forall i :: 0 <= i < slots ==> i in addr)
    requires forall i, j :: 0 <= i < j < |nodes| ==> nodes[i] != nodes[j]
    requires forall i {:trigger addr[i]} :: 0 < i < slots ==> (addr[i] == EMPTY <==> i !in nodes)
    requires forall i :: 0 <= i < |nodes| ==> nodes[i] < slots
    ensures var a, n := addr[nodes[k] := EMPTY], Without(nodes, k);
            && (forall i {:trigger a[i]} :: 0 < i < slots ==> (a[i] == EMPTY <==> i !in n))
            && (forall i :: 0 <= i < |n| ==> n[i] < slots)
  {
    var a := addr[nodes[k] := EMPTY];
    WithoutMembers(nodes, k);
    assert forall i :: 0 <= i < |nodes| ==> nodes[i] in nodes;
    forall i | 0 < i < slots
      ensures a[i] == EMPTY <==> i !in Without(nodes, k)
    {
      assert i != nodes[k] ==> a[i] == addr[i];
    }
  }

  lemma Dropped(addr: map<nat, nat>, nodes: seq<nat>, k: nat, address: nat)
    requires k < |nodes| && forall i, j :: 0 <= i < j < |nodes| ==> nodes[i] != nodes[j]
    requires Addresses(addr, nodes)[k] == address && forall i :: 0 <= i < k ==> Addresses(addr, nodes)[i] != address
    ensures Addresses(addr[nodes[k] := EMPTY], Without(nodes, k)) == Drop(Addresses(addr, nodes), address)
    ensures IndexOf(Addresses(addr, nodes), address) == k
  {
    assert IndexOf(Addresses(addr, nodes), address) == k;
  }

  lemma SlotUsed(addr: map<nat, nat>, link: map<nat, nat>, slots: nat, nodes: seq<nat>)
    requires MList(addr, link, slots, nodes)
    ensures forall i :: 0 < i < slots && addr[i] != EMPTY ==> addr[i] in Addresses(addr, nodes)
  {
    forall i | 0 < i < slots && addr[i] != EMPTY
      ensures addr[i] in Addresses(addr, nodes)
    {
      assert i in nodes;
      var k :| 0 <= k < |nodes| && nodes[k] == i;
      assert Addresses(addr, nodes)[k] == addr[i];
    }
  }

  lemma Pushed(addr: map<nat, nat>, link: map<nat, nat>, slots: nat, nodes: seq<nat>, i: nat, address: nat)
    requires MList(addr, link, slots, nodes) && 0 < i < slots && i !in nodes && address != EMPTY
    ensures 0 in link && MList(addr[i := address], link[i := link[0]][0 := i], slots, [i] + nodes)
    ensures Addresses(addr[i := address], [i] + nodes) == [address] + Addresses(addr, nodes)
  {
    PushedChain(link, nodes, i);
    AddressesPushed(addr, nodes, i, address);
    PushedSlots(addr, slots, nodes, i, address);
    var l := link[i := link[0]][0 := i];
    assert l[0] == i;
    hide Chain, Addresses;
    assert forall k :: 0 <= k < slots ==> k in l;
  }

  lemma PushedSlots(addr: map<nat, nat>, slots: nat, nodes: seq<nat>, i: nat, address: nat)
    requires 0 < i < slots && address != EMPTY
    requires forall k :: 0 <= k < slots ==> k in addr
    requires forall k {:trigger addr[k]} :: 0 < k < slots ==> (addr[k] == EMPTY <==> k !in nodes)
    requires forall k :: 0 <= k < |nodes| ==> nodes[k] < slots
    ensures var a, n := addr[i := address], [i] + nodes;
            && (forall k {:trigger a[k]} :: 0 < k < slots ==> (a[k] == EMPTY <==> k !in n))
            && (forall k :: 0 <= k < |n| ==> n[k] < slots)
  {
    var a, n := addr[i := address], [i] + nodes;
    assert forall x :: x in n <==> x == i || x in nodes;
    forall k | 0 < k < slots
      ensures a[k] == EMPTY <==> k !in n
    {
      assert k != i ==> a[k] == addr[k];
    }
  }

  lemma AddressesPushed(addr: map<nat, nat>, nodes: seq<nat>, i: nat, address: nat)
    requires i !in nodes
    ensures Addresses(addr[i := address], [i] + nodes) == [address] + Addresses(addr, nodes)
  {
    assert forall k :: 0 <= k < |nodes| ==> nodes[k] in nodes;
  }

  lemma FirstGone(all: seq<nat>, reg: seq<nat>, tail: seq<nat>)
    requires all == reg + tail && |reg| >= 3 && forall i, j :: 0 <= i < j < |all| ==> all[i] != all[j]
    ensures all[0] !in reg[1..] && all[0] !in all[2..] && reg[1..] + tail == [all[1]] + all[2..]
  {
    assert forall k :: 0 <= k < |reg| ==> reg[k] == all[k];
  }

  lemma PushedChain(link: map<nat, nat>, nodes: seq<nat>, i: nat)
    requires 0 in link && Chain(link[0], link, nodes) && i !in nodes && i != 0
    ensures Chain(i, link[i := link[0]][0 := i], [i] + nodes)
  {
    ChainPush(link[0], link, nodes, i);
    ZeroNotIn(link[0], link, nodes);
    hide Chain;
    ChainFrame(i, link[i := link[0]], link[i := link[0]][0 := i], [i] + nodes);
  }

  lemma ZeroNotIn(head: nat, link: map<nat, nat>, s: seq<nat>)
    requires Chain(head, link, s)
    ensures 0 !in s
  {
  }

  lemma PagesDistinct(head: nat, link: map<nat, nat>, s: seq<nat>)
    requires Chain(head, link, s)
    ensures forall i, j :: 0 <= i < j < |s| ==> s[i] != s[j]
  {
  }

  lemma HeadIs(head: nat, link: map<nat, nat>, s: seq<nat>)
    requires Chain(head, link, s)
    ensures head == (if s == [] then 0 else s[0]) && (head == 0 <==> s == []) && (s != [] ==> head in link)
  {
  }

  lemma DropFirst(reg: seq<nat>, pages: seq<nat>, tail: seq<nat>, r: nat)
    requires pages != [] && r == pages[0] && pages == reg + tail && |tail| <= 1
    ensures reg != [] ==> Drop(reg, r) == reg[1..] && pages[1..] == reg[1..] + tail
    ensures reg == [] ==> Drop(reg, r) == reg && pages[1..] == []
  {
  }

  lemma DropAt(reg: seq<nat>, pages: seq<nat>, tail: seq<nat>, at: nat)
    requires at < |pages| && at <= 1 && pages == reg + tail && |tail| <= 1
    requires forall i, j :: 0 <= i < j < |pages| ==> pages[i] != pages[j]
    ensures Without(pages, at) == Drop(reg, pages[at]) + if |reg| <= at then [] else tail
  {
    if at < |reg| {
      assert reg[at] == pages[at] && forall i :: 0 <= i < at ==> reg[i] == pages[i];
      assert IndexOf(reg, pages[at]) == at;
      assert pages[..at] == reg[..at] && pages[at + 1..] == reg[at + 1..] + tail;
    } else {
      assert forall i :: 0 <= i < |reg| ==> reg[i] == pages[i];
      assert IndexOf(reg, pages[at]) == |reg|;
      assert pages[..at] == reg && pages[at + 1..] == [];
    }
  }

  lemma FirstAndSecond(head: nat, link: map<nat, nat>, s: seq<nat>)
    requires Chain(head, link, s) && head != 0
    ensures head in link && s != [] && s[0] == head && (link[head] == 0 <==> |s| == 1)
    ensures |s| > 1 ==> link[head] == s[1] && s[1] in link && s[1] != head
    ensures forall i, j :: 0 <= i < j < |s| ==> s[i] != s[j]
  {
    if |s| > 1 {
      assert link[s[0]] == s[1];
    }
  }

  lemma FirstPage(head: nat, link: map<nat, nat>, s: seq<nat>)
    requires Chain(head, link, s) && s != []
    ensures head == s[0] && head in link
  {
  }

  /** What follows element k. */
  lemma Follows(head: nat, link: map<nat, nat>, s: seq<nat>, k: nat)
    requires Chain(head, link, s) && k < |s|
    ensures s[k] in link && (link[s[k]] == 0 <==> k + 1 == |s|)
    ensures k + 1 < |s| ==> link[s[k]] == s[k + 1] && s[k + 1] in link
  {
    if k + 1 < |s| {
      assert link[s[k]] == s[k + 1];
    }
  }

  /** Empty slots from `slots` on. */
  function Slots(slots: nat, n: nat): (m: map<nat, nat>)
    ensures forall j: nat {:trigger j in m} :: j in m <==> slots <= j < slots + n
    ensures forall j {:trigger m[j]} :: slots <= j < slots + n ==> m[j] == EMPTY
  {
    if n == 0 then map[] else Slots(slots, n - 1)[slots + n - 1 := EMPTY]
  }

  lemma MoreSlots(addr: map<nat, nat>, link: map<nat, nat>, slots: nat, nodes: seq<nat>, n: nat)
    requires MList(addr, link, slots, nodes)
    ensures MList(addr + Slots(slots, n), link + Slots(slots, n), slots + n, nodes)
    ensures Addresses(addr + Slots(slots, n), nodes) == Addresses(addr, nodes)
    ensures forall j :: slots <= j < slots + n ==> j !in nodes
  {
    var l := link + Slots(slots, n);
    assert forall k :: 0 <= k < |nodes| ==> nodes[k] in nodes;
    assert forall x :: x in nodes ==> x in l && l[x] == link[x];
    ChainFrame(link[0], link, l, nodes);
    hide Chain;
  }

  lemma AllEmpty(addr: map<nat, nat>, link: map<nat, nat>, slots: nat)
    requires MList(addr, link, slots, [])
    ensures link[0] == 0
  {
  }

  lemma Appended(addr: map<nat, nat>, link: map<nat, nat>, slots: nat, nodes: seq<nat>, i: nat, bd: nat, r: nat)
    requires MList(addr, link, slots, nodes) && 0 < i < slots && i !in nodes && r != EMPTY
    requires bd == (if nodes == [] then 0 else nodes[|nodes| - 1]) && bd in link && link[bd] == 0
    ensures MList(addr[i := r], link[i := link[bd]][bd := i], slots, nodes + [i])
    ensures Addresses(addr[i := r], nodes + [i]) == Addresses(addr, nodes) + [r]
  {
    var l, n := link[i := 0][bd := i], nodes + [i];
    AppendedChain(link, nodes, i, bd);
    assert forall k :: 0 <= k < |nodes| ==> nodes[k] in nodes;
    hide Chain;
    assert forall k :: 0 <= k < slots ==> k in l;
    assert forall x :: x in n <==> x == i || x in nodes;
    assert forall k :: 0 <= k < |n| ==> n[k] < slots;
  }

  lemma AppendedChain(link: map<nat, nat>, nodes: seq<nat>, i: nat, bd: nat)
    requires 0 in link && Chain(link[0], link, nodes) && i !in nodes && i != 0
    requires bd == (if nodes == [] then 0 else nodes[|nodes| - 1])
    ensures var l := link[i := 0][bd := i]; 0 in l && Chain(l[0], l, nodes + [i])
  {
    ZeroNotIn(link[0], link, nodes);
    if nodes != [] {
      ChainAppend(link[0], link, nodes, i);
    }
  }
}
