/** kmalloc and kfree_s over any sequence of calls (mm/kmalloc.c). */
module Kmalloc {
  import opened Basics
  import opened KmallocHeap

  /** Memory as kmalloc sees it: block headers, page descriptors, the page lists of the orders. */
  datatype Heap = Heap(hdr: map<int, Header>, desc: map<int, Desc>, first: seq<int>)

  /** The lists the links stand for: free blocks of each page, pages of each order. */
  datatype Lists = Lists(free: map<int, seq<int>>, pages: seq<seq<int>>)

  /** A header lies at a block of a page in use. */
  ghost predicate Home(desc: map<int, Desc>, b: int) {
    PageOf(b) in desc && desc[PageOf(b)].order < ORDERS && b in PageBlocks(PageOf(b), desc[PageOf(b)].order)
  }

  ghost predicate PagesOk(hdr: map<int, Header>, desc: map<int, Desc>, free: map<int, seq<int>>) {
    desc.Keys == free.Keys && forall pg :: pg in desc ==> PageOk(hdr, desc[pg], pg, free[pg])
  }

  ghost predicate OrdersOk(desc: map<int, Desc>, first: seq<int>, pages: seq<seq<int>>) {
    |first| == |pages| == ORDERS && FullUnlinked(desc) && forall o: nat :: o < ORDERS ==>
      OrderOk(desc, o, first[o], pages[o])
  }

  ghost predicate Ok(h: Heap, l: Lists) {
    PagesOk(h.hdr, h.desc, l.free) && OrdersOk(h.desc, h.first, l.pages) && forall b :: b in h.hdr ==> Home(h.desc, b)
  }

  /** No page is kept that is free altogether. */
  ghost predicate Settled(desc: map<int, Desc>) {
    forall pg :: pg in desc ==> desc[pg].order < ORDERS && desc[pg].nfree < NBLOCKS[desc[pg].order]
  }

  // ---------------------------------------------------------------- what the invariant means

  /** The bytes given to the caller of kmalloc. */
  predicate InPayload(hdr: map<int, Header>, b: int, x: int) {
    b in hdr && hdr[b].UsedH? && b + HEADER <= x < b + HEADER + hdr[b].length
  }

  /** Payloads lie inside their blocks, behind the headers, and no two share a byte. */
  lemma PayloadsApart(h: Heap, l: Lists, b: int, c: int, x: int)
    requires Ok(h, l) && InPayload(h.hdr, b, x) && InPayload(h.hdr, c, x)
    ensures b == c
    ensures Home(h.desc, b) && x < b + SIZES[h.desc[PageOf(b)].order]
  {
    hide OrdersOk;
    assert Home(h.desc, b) && Home(h.desc, c);
    assert PageOk(h.hdr, h.desc[PageOf(b)], PageOf(b), l.free[PageOf(b)]);
    assert PageOk(h.hdr, h.desc[PageOf(c)], PageOf(c), l.free[PageOf(c)]);
    PageOfBlock(PageOf(b), h.desc[PageOf(b)].order, b);
    PageOfBlock(PageOf(c), h.desc[PageOf(c)].order, c);
    hide PageOf, PageBlocks;
    if b != c && PageOf(b) == PageOf(c) { BlocksApart(PageOf(b), h.desc[PageOf(b)].order, b, c); }
    if PageOf(b) != PageOf(c) { PagesApart(PageOf(b), PageOf(c)); }
  }

  lemma PagesApart(p: int, q: int)
    requires p % PAGE_SIZE == 0 && q % PAGE_SIZE == 0 && p != q
    ensures p + PAGE_SIZE <= q || q + PAGE_SIZE <= p
  {
  }

  /** How many of some blocks are in use. */
  ghost function Live(hdr: map<int, Header>, bs: seq<int>): nat {
    if bs == [] then 0 else Live(hdr, bs[..|bs| - 1]) + if bs[|bs| - 1] in hdr && hdr[bs[|bs| - 1]].UsedH? then 1 else 0
  }

  ghost function FreeIn(hdr: map<int, Header>, bs: seq<int>): set<int> {
    set b | b in bs && b in hdr && hdr[b].FreeH?
  }

  lemma ChainIsFree(hdr: map<int, Header>, d: Desc, pg: int, c: seq<int>)
    requires PageOk(hdr, d, pg, c)
    ensures FreeIn(hdr, PageBlocks(pg, d.order)) == set b | b in c
  {
    hide PageBlocks;
    forall b | b in c ensures b in hdr && hdr[b].FreeH? {
      var i :| 0 <= i < |c| && c[i] == b;
      assert FreeAt(hdr, c, i);
    }
    var bs := PageBlocks(pg, d.order);
    forall b ensures b in FreeIn(hdr, bs) <==> b in c { }
  }

  /** Free blocks of a page and blocks in use make up all its blocks. */
  lemma FreePlusLive(h: Heap, l: Lists, pg: int)
    requires Ok(h, l) && pg in h.desc
    ensures h.desc[pg].order < ORDERS
    ensures h.desc[pg].nfree == |l.free[pg]| ==
        NBLOCKS[h.desc[pg].order] - Live(h.hdr, PageBlocks(pg, h.desc[pg].order))
  {
    hide OrdersOk, Live, FreeIn;
    assert PageOk(h.hdr, h.desc[pg], pg, l.free[pg]);
    var o := h.desc[pg].order;
    BlocksLength(pg + DESC, SIZES[o], NBLOCKS[o]);
    BlocksDistinct(pg, o);
    ChainIsFree(h.hdr, h.desc[pg], pg, l.free[pg]);
    FreeSet(h.hdr, PageBlocks(pg, o));
    DistinctSet(l.free[pg]);
  }

  lemma BlocksDistinct(pg: int, order: nat)
    requires order < ORDERS
    ensures Distinct(PageBlocks(pg, order))
  {
    BlocksLength(pg + DESC, SIZES[order], NBLOCKS[order]);
    forall i, j | 0 <= i < j < |PageBlocks(pg, order)| ensures PageBlocks(pg, order)[i] != PageBlocks(pg, order)[j] {
      InPage(pg, order, i);
      InPage(pg, order, j);
      Steps(i, j, SIZES[order]);
    }
  }

  lemma {:induction false} DistinctSet(c: seq<int>)
    requires Distinct(c)
    ensures |set b | b in c| == |c|
  {
    if c != [] {
      var n := |c| - 1;
      DistinctSet(c[..n]);
      assert (set b | b in c) == (set b | b in c[..n]) + {c[n]};
    }
  }

  lemma {:induction false} FreeSet(hdr: map<int, Header>, bs: seq<int>)
    requires Distinct(bs) && forall b :: b in bs ==> b in hdr
    ensures |FreeIn(hdr, bs)| == |bs| - Live(hdr, bs)
  {
    if bs != [] {
      var n := |bs| - 1;
      assert bs[n] in bs;
      FreeSet(hdr, bs[..n]);
      FreeLast(hdr, bs);
    }
  }

  lemma FreeLast(hdr: map<int, Header>, bs: seq<int>)
    requires Distinct(bs) && bs != [] && bs[|bs| - 1] in hdr
    ensures var n := |bs| - 1;
      FreeIn(hdr, bs) == FreeIn(hdr, bs[..n]) + if hdr[bs[n]].FreeH? then {bs[n]} else {}
    ensures bs[|bs| - 1] !in FreeIn(hdr, bs[..|bs| - 1])
  {
    var n := |bs| - 1;
    assert forall b :: b in bs <==> b in bs[..n] || b == bs[n];
  }

  // ---------------------------------------------------------------- steps

  /** Blocks of different pages are different. */
  lemma OtherPage(pg: int, o: nat, pg': int, o': nat, b: int)
    requires o < ORDERS && o' < ORDERS && pg % PAGE_SIZE == 0 && pg' % PAGE_SIZE == 0 && pg != pg'
    requires b in PageBlocks(pg, o)
    ensures b !in PageBlocks(pg', o')
  {
    PageOfBlock(pg, o, b);
    if b in PageBlocks(pg', o') { PageOfBlock(pg', o', b); }
  }

  /** One page changes, with its headers; the others stay in order. */
  lemma OnePage(hdr: map<int, Header>, hdr': map<int, Header>, desc: map<int, Desc>, free: map<int, seq<int>>,
      pg: int, d: Desc, c: seq<int>)
    requires PagesOk(hdr, desc, free) && PageOk(hdr', d, pg, c)
    requires forall b :: b !in PageBlocks(pg, d.order) && b in hdr ==> b in hdr' && hdr'[b] == hdr[b]
    ensures PagesOk(hdr', desc[pg := d], free[pg := c])
  {
    hide PageBlocks;
    forall q | q in desc && q != pg ensures PageOk(hdr', desc[q], q, free[q]) {
      assert PageOk(hdr, desc[q], q, free[q]);
      forall b | b in PageBlocks(q, desc[q].order)
        ensures b !in PageBlocks(pg, d.order)
      {
        OtherPage(q, desc[q].order, pg, d.order, b);
      }
      PageKept(hdr, hdr', desc[q], desc[q], q, free[q]);
    }
  }

  /** Pages of order `o` change; the lists of the other orders do not. */
  lemma OtherOrders(desc: map<int, Desc>, desc': map<int, Desc>, first: seq<int>, pages: seq<seq<int>>, o: nat,
      f: int, s: seq<int>)
    requires OrdersOk(desc, first, pages) && o < ORDERS && OrderOk(desc', o, f, s) && FullUnlinked(desc')
    requires forall pg ::
      (pg in desc && desc[pg].order != o) || (pg in desc' && desc'[pg].order != o) ==>
        pg in desc && pg in desc' && desc'[pg] == desc[pg]
    ensures OrdersOk(desc', first[o := f], pages[o := s])
  {
    forall o': nat | o' < ORDERS && o' != o ensures OrderOk(desc', o', first[o'], pages[o']) {
      OrderKept(desc, desc', o', first[o'], pages[o']);
    }
  }

  /** Block `b` of a page used for `length` bytes. */
  function Taken(h: Heap, o: nat, length: int): Heap
    requires o < |h.first| && h.first[o] in h.desc && h.desc[h.first[o]].firstfree in h.hdr
    requires h.hdr[h.desc[h.first[o]].firstfree].FreeH?
  {
    var pg := h.first[o];
    var p := h.desc[pg].firstfree;
    var d := h.desc[pg].(firstfree := h.hdr[p].next, nfree := h.desc[pg].nfree - 1);
    Heap(h.hdr[p := UsedH(length)], h.desc[pg := if d.nfree == 0 then d.(next := NULL) else d],
         if d.nfree == 0 then h.first[o := d.next] else h.first)
  }

  function TakenLists(l: Lists, h: Heap, o: nat): Lists
    requires o < |h.first| && o < |l.pages| && h.first[o] in l.free && l.free[h.first[o]] != [] && l.pages[o] != []
    requires h.first[o] in h.desc
  {
    var pg := h.first[o];
    Lists(l.free[pg := l.free[pg][1..]], if h.desc[pg].nfree == 1 then l.pages[o := l.pages[o][1..]] else l.pages)
  }

  /** The first page of an order with a free block has one to give. */
  lemma HasFree(h: Heap, l: Lists, o: nat)
    requires Ok(h, l) && o < ORDERS && h.first[o] != NULL
    ensures var pg := h.first[o];
      && pg in h.desc && pg in l.free && l.pages[o] != [] && l.pages[o][0] == pg && h.desc[pg].order == o
      && h.desc[pg].nfree > 0
      && l.free[pg] != [] && h.desc[pg].firstfree == l.free[pg][0] && l.free[pg][0] in h.hdr
      && h.hdr[l.free[pg][0]].FreeH?
      && l.free[pg][0] in PageBlocks(pg, o) && PageOk(h.hdr, h.desc[pg], pg, l.free[pg])
  {
    hide Home;
    assert OrderOk(h.desc, o, h.first[o], l.pages[o]);
    var pg := h.first[o];
    assert pg in l.pages[o] && Listable(h.desc, o, pg);
    assert PageOk(h.hdr, h.desc[pg], pg, l.free[pg]);
    assert FreeAt(h.hdr, l.free[pg], 0) && l.free[pg][0] in l.free[pg];
  }

  lemma TakenOk(h: Heap, l: Lists, o: nat, length: int)
    requires Ok(h, l) && o < ORDERS && h.first[o] != NULL && Fits(length, o)
    ensures var pg := h.first[o];
        pg in h.desc && h.desc[pg].firstfree in h.hdr && h.hdr[h.desc[pg].firstfree].FreeH? && h.desc[pg].nfree > 0
    ensures FirstPage(h, l, o)
    ensures Ok(Taken(h, o, length), TakenLists(l, h, o))
  {
    HasFree(h, l, o);
    hide PagesOk, OrdersOk, Home, PageOk, OrderOk, Taken, TakenLists;
    TakenPages(h, l, o, length);
    TakenOrders(h, l, o, length);
  }

  /** Every page and header is in order after the first block of the first page is taken. */
  lemma TakenPages(h: Heap, l: Lists, o: nat, length: int)
    requires Ok(h, l) && o < ORDERS && h.first[o] != NULL && Fits(length, o) && FirstPage(h, l, o)
    requires h.desc[h.first[o]].firstfree in h.hdr && h.hdr[h.desc[h.first[o]].firstfree].FreeH?
    ensures PagesOk(Taken(h, o, length).hdr, Taken(h, o, length).desc, TakenLists(l, h, o).free)
    ensures forall b :: b in Taken(h, o, length).hdr ==> Home(Taken(h, o, length).desc, b)
  {
    HasFree(h, l, o);
    var h', pg := Taken(h, o, length), h.first[o];
    var p := l.free[pg][0];
    var d := h.desc[pg].(firstfree := h.hdr[p].next, nfree := h.desc[pg].nfree - 1);
    TakeFirst(h.hdr, h.desc[pg], pg, l.free[pg], length);
    hide PageOk, OrderOk, OrdersOk, PageBlocks, PageOf;
    SameBut(h'.hdr, d, h'.desc[pg], pg, l.free[pg][1..]);
    OnePage(h.hdr, h'.hdr, h.desc, l.free, pg, h'.desc[pg], l.free[pg][1..]);
    forall b | b in h'.hdr ensures Home(h'.desc, b) { assert Home(h.desc, b); }
  }

  /** The first page of an order is there and has a free block. */
  predicate FirstPage(h: Heap, l: Lists, o: nat) {
    o < |h.first| && o < |l.pages| && h.first[o] in l.free && l.free[h.first[o]] != [] && l.pages[o] != []
      && h.first[o] in h.desc
  }

  lemma SameBut(hdr: map<int, Header>, d: Desc, d': Desc, pg: int, c: seq<int>)
    requires PageOk(hdr, d, pg, c) && d' == d.(next := d'.next)
    ensures PageOk(hdr, d', pg, c)
  {
    PageKept(hdr, hdr, d, d', pg, c);
  }

  lemma TakenOrders(h: Heap, l: Lists, o: nat, length: int)
    requires Ok(h, l) && o < ORDERS && h.first[o] != NULL && FirstPage(h, l, o)
    requires h.desc[h.first[o]].firstfree in h.hdr && h.hdr[h.desc[h.first[o]].firstfree].FreeH?
    ensures OrdersOk(Taken(h, o, length).desc, Taken(h, o, length).first, TakenLists(l, h, o).pages)
  {
    HasFree(h, l, o);
    hide PagesOk, Home, PageOk;
    var h', pg := Taken(h, o, length), h.first[o];
    assert OrderOk(h.desc, o, h.first[o], l.pages[o]);
    if h.desc[pg].nfree == 1 {
      PopPage(h.desc, o, pg, l.pages[o], h'.desc[pg]);
      OtherOrders(h.desc, h'.desc, h.first, l.pages, o, h.desc[pg].next, l.pages[o][1..]);
    } else {
      OrderKept(h.desc, h'.desc, o, pg, l.pages[o]);
      OtherOrders(h.desc, h'.desc, h.first, l.pages, o, pg, l.pages[o]);
      assert h.first[o := pg] == h.first && l.pages[o := l.pages[o]] == l.pages;
    }
  }

  // ---------------------------------------------------------------- a new page

  /** The blocks of a page threaded onto one chain, all other headers untouched. */
  ghost predicate Threaded(hdr: map<int, Header>, hdr': map<int, Header>, bs: seq<int>) {
    && (forall i :: 0 <= i < |bs| ==> FreeAt(hdr', bs, i))
    && (forall b :: b !in bs ==> (b in hdr' <==> b in hdr) && (b in hdr ==> hdr'[b] == hdr[b]))
  }

  function Added(h: Heap, hdr: map<int, Header>, pg: int, o: nat): Heap
    requires o < |h.first| && o < ORDERS
  {
    Heap(hdr, h.desc[pg := Desc(h.first[o], pg + DESC, o, NBLOCKS[o])], h.first[o := pg])
  }

  lemma NewPageOk(hdr': map<int, Header>, pg: int, o: nat, next: int)
    requires o < ORDERS && pg % PAGE_SIZE == 0 && pg > 0
    requires forall i :: 0 <= i < |PageBlocks(pg, o)| ==> FreeAt(hdr', PageBlocks(pg, o), i)
    ensures PageOk(hdr', Desc(next, pg + DESC, o, NBLOCKS[o]), pg, PageBlocks(pg, o))
  {
    var bs := PageBlocks(pg, o);
    BlocksLength(pg + DESC, SIZES[o], NBLOCKS[o]);
    BlocksDistinct(pg, o);
    InPage(pg, o, 0);
    hide PageBlocks;
    forall b | b in bs ensures b in hdr' && hdr'[b].FreeH? {
      var i :| 0 <= i < |bs| && bs[i] == b;
      assert FreeAt(hdr', bs, i);
    }
  }

  lemma AddedOk(h: Heap, l: Lists, hdr: map<int, Header>, pg: int, o: nat)
    requires Ok(h, l) && o < ORDERS && pg % PAGE_SIZE == 0 && pg > 0 && pg !in h.desc
    requires Threaded(h.hdr, hdr, PageBlocks(pg, o))
    ensures Ok(Added(h, hdr, pg, o), Lists(l.free[pg := PageBlocks(pg, o)], l.pages[o := [pg] + l.pages[o]]))
  {
    var h' := Added(h, hdr, pg, o);
    NewPageOk(hdr, pg, o, h.first[o]);
    hide PageBlocks, PageOk, OrderOk;
    OnePage(h.hdr, hdr, h.desc, l.free, pg, h'.desc[pg], PageBlocks(pg, o));
    AddedOrders(h, l, hdr, pg, o);
    forall b | b in hdr ensures Home(h'.desc, b) {
      if b in PageBlocks(pg, o) { PageOfBlock(pg, o, b); } else { assert Home(h.desc, b); }
    }
  }

  lemma AddedOrders(h: Heap, l: Lists, hdr: map<int, Header>, pg: int, o: nat)
    requires Ok(h, l) && o < ORDERS && pg !in h.desc
    ensures OrdersOk(Added(h, hdr, pg, o).desc, Added(h, hdr, pg, o).first, l.pages[o := [pg] + l.pages[o]])
  {
    hide PagesOk, Home, PageOk;
    var h' := Added(h, hdr, pg, o);
    assert OrderOk(h.desc, o, h.first[o], l.pages[o]);
    PushPage(h.desc, o, h.first[o], l.pages[o], pg, h'.desc[pg]);
    OtherOrders(h.desc, h'.desc, h.first, l.pages, o, pg, [pg] + l.pages[o]);
  }

  // ---------------------------------------------------------------- a block given back

  /** Block `b` on the chain of its page, and the page on its list if it was full. */
  function Freed(h: Heap, b: int): Heap
    requires PageOf(b) in h.desc && h.desc[PageOf(b)].order < |h.first|
  {
    var pg := PageOf(b);
    var d := h.desc[pg].(firstfree := b, nfree := h.desc[pg].nfree + 1);
    var hdr := h.hdr[b := FreeH(h.desc[pg].firstfree)];
    if d.nfree == 1 then Heap(hdr, h.desc[pg := d.(next := h.first[d.order])], h.first[d.order := pg])
    else Heap(hdr, h.desc[pg := d], h.first)
  }

  function FreedLists(h: Heap, l: Lists, b: int): Lists
    requires PageOf(b) in h.desc && PageOf(b) in l.free && h.desc[PageOf(b)].order < |l.pages|
  {
    var pg := PageOf(b);
    var o := h.desc[pg].order;
    Lists(l.free[pg := [b] + l.free[pg]], if h.desc[pg].nfree == 0 then l.pages[o := [pg] + l.pages[o]] else l.pages)
  }

  lemma FreedOk(h: Heap, l: Lists, b: int)
    requires Ok(h, l) && b in h.hdr && h.hdr[b].UsedH?
    ensures PageOf(b) in h.desc && PageOf(b) in l.free && h.desc[PageOf(b)].order < ORDERS && PageOf(b) > 0
    ensures Ok(Freed(h, b), FreedLists(h, l, b))
  {
    assert Home(h.desc, b);
    var pg := PageOf(b);
    assert PageOk(h.hdr, h.desc[pg], pg, l.free[pg]);
    var h', d := Freed(h, b), h.desc[pg].(firstfree := b, nfree := h.desc[pg].nfree + 1);
    GiveBack(h.hdr, h.desc[pg], pg, l.free[pg], b);
    hide PageOk, OrderOk, PageBlocks;
    SameBut(h'.hdr, d, h'.desc[pg], pg, [b] + l.free[pg]);
    OnePage(h.hdr, h'.hdr, h.desc, l.free, pg, h'.desc[pg], [b] + l.free[pg]);
    FreedOrders(h, l, b);
    forall x | x in h'.hdr ensures Home(h'.desc, x) { assert Home(h.desc, x); }
  }

  lemma FreedOrders(h: Heap, l: Lists, b: int)
    requires Ok(h, l) && b in h.hdr && PageOf(b) in h.desc && PageOf(b) in l.free && h.desc[PageOf(b)].order < ORDERS
    ensures OrdersOk(Freed(h, b).desc, Freed(h, b).first, FreedLists(h, l, b).pages)
  {
    var h', pg := Freed(h, b), PageOf(b);
    var o := h.desc[pg].order;
    assert PageOk(h.hdr, h.desc[pg], pg, l.free[pg]);
    hide PagesOk, Home, PageOk, PageOf;
    assert OrderOk(h.desc, o, h.first[o], l.pages[o]);
    if h.desc[pg].nfree == 0 {
      PushPage(h.desc, o, h.first[o], l.pages[o], pg, h'.desc[pg]);
      OtherOrders(h.desc, h'.desc, h.first, l.pages, o, pg, [pg] + l.pages[o]);
    } else {
      OrderKept(h.desc, h'.desc, o, h.first[o], l.pages[o]);
      OtherOrders(h.desc, h'.desc, h.first, l.pages, o, h.first[o], l.pages[o]);
      assert h.first[o := h.first[o]] == h.first && l.pages[o := l.pages[o]] == l.pages;
    }
  }

  // ---------------------------------------------------------------- a page given back

  function WithoutPage(hdr: map<int, Header>, pg: int): map<int, Header> {
    map b | b in hdr && PageOf(b) != pg :: hdr[b]
  }

  /** The page at place `k` of the list of its order unlinked and released. */
  function Released(h: Heap, s: seq<int>, o: nat, k: nat): Heap
    requires k < |s| && s[k] in h.desc && (k > 0 ==> s[k - 1] in h.desc) && o < |h.first|
  {
    Heap(WithoutPage(h.hdr, s[k]), Passed(h.desc, s, k), if k == 0 then h.first[o := h.desc[s[k]].next] else h.first)
  }

  /** A page keeps its order through the release of another. */
  lemma ReleasedPage(hdr: map<int, Header>, d: Desc, d': Desc, pg: int, q: int, c: seq<int>)
    requires PageOk(hdr, d, q, c) && q != pg && d' == d.(next := d'.next)
    ensures PageOk(WithoutPage(hdr, pg), d', q, c)
  {
    forall b | b in PageBlocks(q, d.order) ensures PageOf(b) == q { PageOfBlock(q, d.order, b); }
    hide PageOf, PageBlocks;
    PageKept(hdr, WithoutPage(hdr, pg), d, d', q, c);
  }

  lemma PassedDesc(desc: map<int, Desc>, s: seq<int>, k: nat, q: int)
    requires k < |s| && s[k] in desc && (k > 0 ==> s[k - 1] in desc) && Distinct(s)
    ensures q in Passed(desc, s, k) <==> q in desc && q != s[k]
    ensures q in Passed(desc, s, k) ==> Passed(desc, s, k)[q] == desc[q].(next := Passed(desc, s, k)[q].next)
  {
  }

  lemma ReleasedPages(h: Heap, l: Lists, o: nat, k: nat)
    requires PagesOk(h.hdr, h.desc, l.free) && (forall b :: b in h.hdr ==> Home(h.desc, b)) && o < |h.first|
    requires o < |l.pages| && Distinct(l.pages[o])
    requires k < |l.pages[o]| && l.pages[o][k] in h.desc && (k > 0 ==> l.pages[o][k - 1] in h.desc)
    ensures PagesOk(Released(h, l.pages[o], o, k).hdr, Released(h, l.pages[o], o, k).desc, l.free - {l.pages[o][k]})
    ensures forall b :: b in Released(h, l.pages[o], o, k).hdr ==> Home(Released(h, l.pages[o], o, k).desc, b)
  {
    hide PageBlocks, PageOk, PageOf, Passed;
    var h', s := Released(h, l.pages[o], o, k), l.pages[o];
    forall q ensures q in h'.desc <==> q in h.desc && q != s[k] { PassedDesc(h.desc, s, k, q); }
    forall q | q in h'.desc ensures PageOk(h'.hdr, h'.desc[q], q, l.free[q]) {
      PassedDesc(h.desc, s, k, q);
      ReleasedPage(h.hdr, h.desc[q], h'.desc[q], s[k], q, l.free[q]);
    }
    forall b | b in h'.hdr ensures Home(h'.desc, b) {
      assert Home(h.desc, b);
      PassedDesc(h.desc, s, k, PageOf(b));
    }
  }

  lemma ReleasedOk(h: Heap, l: Lists, o: nat, k: nat)
    requires Ok(h, l) && o < ORDERS && k < |l.pages[o]|
    ensures l.pages[o][k] in h.desc && (k > 0 ==> l.pages[o][k - 1] in h.desc)
    ensures Ok(Released(h, l.pages[o], o, k), Lists(l.free - {l.pages[o][k]}, l.pages[o := Remove(l.pages[o], k)]))
  {
    hide Home, PageOk;
    assert OrderOk(h.desc, o, h.first[o], l.pages[o]);
    var s := l.pages[o];
    DropPage(h.desc, o, h.first[o], s, k);
    ReleasedPages(h, l, o, k);
    assert s[k] in s && Listable(h.desc, o, s[k]) && (k > 0 ==> s[k - 1] in s && Listable(h.desc, o, s[k - 1]));
    var first' := if k == 0 then h.desc[s[k]].next else h.first[o];
    OtherOrders(h.desc, Passed(h.desc, s, k), h.first, l.pages, o, first', Remove(s, k));
    assert h.first[o := h.first[o]] == h.first;
  }

  // ---------------------------------------------------------------- the calls

  class Allocator {
    var h: Heap
    ghost var l: Lists

    ghost predicate Valid()
      reads this
    {
      Ok(h, l) && Settled(h.desc)
    }

    constructor ()
      ensures Valid() && h.hdr == map[]
    {
      h := Heap(map[], map[], seq(ORDERS, _ => NULL));
      l := Lists(map[], seq(ORDERS, _ => []));
    }

    /** A new page put on the list of its order. */
    method AddPage(pg: int, o: nat)
      requires Ok(h, l) && o < ORDERS && pg % PAGE_SIZE == 0 && pg > 0 && pg !in h.desc
      modifies this
      ensures Ok(h, l) && FirstOf(h, o) == pg
      ensures (forall b :: b in old(h.hdr) ==> b in h.hdr && h.hdr[b] == old(h.hdr)[b])
      ensures (forall b :: b in h.hdr && b !in old(h.hdr) ==> h.hdr[b].FreeH?)
      ensures h.desc == old(h.desc)[pg := Desc(FirstOf(old(h), o), pg + DESC, o, NBLOCKS[o])]
    {
      hide Ok, PageBlocks;
      OkSizes(h, l);
      var hdr := Thread(h.hdr, pg, o);
      NoneThere(h, l, pg, o);
      AddedOk(h, l, hdr, pg, o);
      ThreadedFree(hdr, PageBlocks(pg, o));
      l := Lists(l.free[pg := PageBlocks(pg, o)], l.pages[o := [pg] + l.pages[o]]);
      h := Added(h, hdr, pg, o);
    }

    /** kmalloc; `page` is what __get_free_page would give, or NULL. */
    method Kmalloc(size: int, page: int) returns (p: int)
      requires Valid() && size >= 0 && (page == NULL || (page % PAGE_SIZE == 0 && page > 0 && page !in h.desc))
      modifies this
      ensures Valid()
      ensures p == NULL ==> h == old(h)
      ensures p == NULL <==> OrderOf(size) == ORDERS || (!HasRoom(old(h), OrderOf(size)) && page == NULL)
      ensures p != NULL ==> p - HEADER !in InUse(old(h.hdr)) && InUse(h.hdr) == InUse(old(h.hdr))[p - HEADER := size]
    {
      hide Ok, InUse, Settled, HasRoom;
      if OrderOf(size) < ORDERS { RoomFirst(h, l, OrderOf(size)); }
      if size > 4 * 1024 { return NULL; }
      var order := GetOrder(size);
      if order < 0 { return NULL; }
      OkSizes(h, l);
      var tries := 4;
      while tries > 0
        invariant tries == 4 ==> h == old(h) && l == old(l) && Settled(h.desc)
        invariant 3 <= tries <= 4 && Ok(h, l) && |h.first| == ORDERS && InUse(h.hdr) == InUse(old(h.hdr))
        invariant tries < 4 ==>
          h.first[order] == page && page != NULL && old(h).first[order] == NULL && SettledBut(h.desc, page)
      {
        tries := tries - 1;
        if h.first[order] != NULL {
          TakenOk(h, l, order, size);
          p := h.desc[h.first[order]].firstfree + HEADER;
          TakenUse(h, l, order, size);
          if tries == 3 { SettledAny(h.desc, h.first[order]); }
          TakenSettled(h, l, order, size);
          h, l := Taken(h, order, size), TakenLists(l, h, order);
          return;
        }
        if page == NULL { return NULL; }
        AddPage(page, order);
        OkSizes(h, l);
        SameUse(old(h.hdr), h.hdr);
        AddedSettled(old(h.desc), h.desc, page);
      }
      assert false;
    }

    /** A page whose blocks are all free unlinked and released. */
    method ReleasePage(pg: int, o: nat)
      requires Ok(h, l) && o < ORDERS && Listable(h.desc, o, pg) && SettledBut(h.desc, pg)
      modifies this
      ensures Valid() && h.hdr == WithoutPage(old(h.hdr), pg) && h.desc.Keys == old(h.desc).Keys - {pg}
    {
      hide Ok, PageOk, WithoutPage, OrderOk;
      OkSizes(h, l);
      OnOrder(h, l, o, pg);
      ghost var s := l.pages[o];
      ghost var k := 0;
      if h.first[o] == pg {
        FirstIs(h, l, o);
        ReleasedOk(h, l, o, 0);
        ReleasedDesc(h, l, o, 0);
        l := Lists(l.free - {s[0]}, l.pages[o := Remove(s, 0)]);
        h := Heap(WithoutPage(h.hdr, pg), h.desc - {pg}, h.first[o := h.desc[pg].next]);
      } else {
        var pg2 := h.first[o];
        FirstIs(h, l, o);
        while h.desc[pg2].next != pg
          invariant 0 <= k < |s| && pg2 == s[k] && pg2 in h.desc && h == old(h) && l == old(l)
          invariant forall j :: 0 <= j <= k ==> s[j] != pg
          decreases |s| - k
        {
          NextOn(h, l, o, k, pg);
          pg2 := h.desc[pg2].next;
          k := k + 1;
        }
        NextOn(h, l, o, k, pg);
        ReleasedOk(h, l, o, k + 1);
        ReleasedDesc(h, l, o, k + 1);
        l := Lists(l.free - {pg}, l.pages[o := Remove(s, k + 1)]);
        h := Heap(WithoutPage(h.hdr, pg), h.desc[pg2 := h.desc[pg2].(next := h.desc[pg].next)] - {pg}, h.first);
      }
    }

    /** kfree_s of a block of a page in use; one that is free already, or a wrong size, changes nothing. */
    method KfreeS(ptr: int, size: int) returns (ok: bool)
      requires Valid() && ptr - HEADER in h.hdr
      modifies this
      ensures Valid()
      ensures ok == (ptr - HEADER in InUse(old(h.hdr)) && (size == 0 || size == InUse(old(h.hdr))[ptr - HEADER]))
      ensures if ok then InUse(h.hdr) == InUse(old(h.hdr)) - {ptr - HEADER} else h == old(h)
      ensures ok ==>
        (PageOf(ptr - HEADER) !in h.desc <==> forall b :: b in InUse(h.hdr) ==> PageOf(b) != PageOf(ptr - HEADER))
    {
      hide Ok, Settled, PageOf, WithoutPage;
      var p := ptr - HEADER;
      if !h.hdr[p].UsedH? { return false; }
      if size != 0 && size != h.hdr[p].length { return false; }
      ok := true;
      OkSizes(h, l);
      FreedOk(h, l, p);
      FreedSettled(h, l, p);
      ghost var was := h;
      var page := PageOf(p);
      h, l := Freed(h, p), FreedLists(h, l, p);
      FreedUse(was, p);
      PageLive(h, l, page);
      if h.desc[page].nfree == NBLOCKS[h.desc[page].order] {
        ReleasePage(page, h.desc[page].order);
        WithoutUse(Freed(was, p).hdr, page);
      } else {
        SettledAll(h.desc, page);
      }
    }
  }

  function FirstOf(h: Heap, o: nat): int {
    if o < |h.first| then h.first[o] else NULL
  }

  /** Some page of the order has a free block. */
  ghost predicate HasRoom(h: Heap, o: nat) {
    exists pg :: pg in h.desc && h.desc[pg].order == o && h.desc[pg].nfree > 0
  }

  /** The pages with free blocks are those on the list of their order. */
  lemma RoomFirst(h: Heap, l: Lists, o: nat)
    requires Ok(h, l) && o < ORDERS
    ensures HasRoom(h, o) <==> FirstOf(h, o) != NULL
  {
    OkSizes(h, l);
    if HasRoom(h, o) {
      var pg :| pg in h.desc && h.desc[pg].order == o && h.desc[pg].nfree > 0;
      OnOrder(h, l, o, pg);
      FirstIs(h, l, o);
      assert PageOk(h.hdr, h.desc[h.first[o]], h.first[o], l.free[h.first[o]]);
    }
    hide Ok;
    if FirstOf(h, o) != NULL { HasFree(h, l, o); }
  }

  lemma OkSizes(h: Heap, l: Lists)
    requires Ok(h, l)
    ensures |h.first| == |l.pages| == ORDERS && h.desc.Keys == l.free.Keys
  {
  }

  /** `n` blocks of size `sz` linked one to the next. */
  method ThreadBlocks(hdr: map<int, Header>, p0: int, sz: int, n: int, ghost bs: seq<int>)
    returns (hdr': map<int, Header>)
    requires |bs| == n >= 1 && bs[0] == p0 && Distinct(bs)
    requires forall k :: 0 <= k && k + 1 < n ==> bs[k + 1] == bs[k] + sz
    ensures Threaded(hdr, hdr', bs)
  {
    hide FreeAt, Distinct, After;
    var i, p := n, p0;
    hdr' := hdr;
    ghost var k: nat := 0;
    while i > 1
      invariant 1 <= i && k == n - i && k >= 0 && p == bs[k] && PartThreaded(hdr, hdr', bs, k)
    {
      ThreadOne(hdr, hdr', bs, k);
      hdr' := hdr'[p := FreeH(p + sz)];
      p, i, k := p + sz, i - 1, k + 1;
    }
    ThreadOne(hdr, hdr', bs, k);
    hdr' := hdr'[p := FreeH(NULL)];
  }

  /** The first `k` of some blocks linked, each to the one behind it. */
  ghost predicate PartThreaded(hdr: map<int, Header>, hdr': map<int, Header>, bs: seq<int>, k: nat)
    requires k <= |bs|
  {
    && (forall j :: 0 <= j < k ==> FreeAt(hdr', bs, j))
    && forall b :: b !in bs ==> (b in hdr' <==> b in hdr) && (b in hdr ==> hdr'[b] == hdr[b])
  }

  lemma ThreadOne(hdr: map<int, Header>, hdr': map<int, Header>, bs: seq<int>, k: nat)
    requires k < |bs| && Distinct(bs) && PartThreaded(hdr, hdr', bs, k)
    ensures PartThreaded(hdr, hdr'[bs[k] := FreeH(if k + 1 < |bs| then bs[k + 1] else NULL)], bs, k + 1)
  {
    var new' := hdr'[bs[k] := FreeH(if k + 1 < |bs| then bs[k + 1] else NULL)];
    assert bs[k] in bs;
    forall j | 0 <= j < k + 1 ensures FreeAt(new', bs, j) {
      if j < k { assert FreeAt(hdr', bs, j) && bs[j] != bs[k]; }
    }
  }

  /** The blocks of a new page linked one to the next. */
  method Thread(hdr: map<int, Header>, pg: int, o: nat) returns (hdr': map<int, Header>)
    requires o < ORDERS
    ensures Threaded(hdr, hdr', PageBlocks(pg, o))
  {
    ghost var bs := PageBlocks(pg, o);
    BlocksDistinct(pg, o);
    InPage(pg, o, 0);
    hide PageBlocks, Threaded;
    forall k: nat | k + 1 < NBLOCKS[o] ensures bs[k + 1] == bs[k] + SIZES[o] { StepOn(pg, o, k); }
    hdr' := ThreadBlocks(hdr, pg + DESC, SIZES[o], NBLOCKS[o], bs);
  }

  lemma ThreadedFree(hdr: map<int, Header>, bs: seq<int>)
    requires forall i :: 0 <= i < |bs| ==> FreeAt(hdr, bs, i)
    ensures forall b :: b in bs ==> b in hdr && hdr[b].FreeH?
  {
    forall b | b in bs ensures b in hdr && hdr[b].FreeH? {
      var i :| 0 <= i < |bs| && bs[i] == b;
      assert FreeAt(hdr, bs, i);
    }
  }

  /** Behind a block of a page there is the next one. */
  lemma StepOn(pg: int, o: nat, k: nat)
    requires o < ORDERS && k + 1 < NBLOCKS[o]
    ensures |PageBlocks(pg, o)| == NBLOCKS[o] && PageBlocks(pg, o)[k + 1] == PageBlocks(pg, o)[k] + SIZES[o]
  {
    InPage(pg, o, k);
    InPage(pg, o, k + 1);
    assert (k + 1) * SIZES[o] == k * SIZES[o] + SIZES[o];
  }

  /** A page that is not in use has no headers. */
  lemma NoneThere(h: Heap, l: Lists, pg: int, o: nat)
    requires Ok(h, l) && pg !in h.desc && pg % PAGE_SIZE == 0 && o < ORDERS
    ensures forall b :: b in PageBlocks(pg, o) ==> b !in h.hdr
  {
    forall b | b in PageBlocks(pg, o) ensures b !in h.hdr {
      PageOfBlock(pg, o, b);
      assert b in h.hdr ==> Home(h.desc, b);
    }
  }

  // ---------------------------------------------------------------- about the calls

  /** Every live block with the length asked for. */
  ghost function InUse(hdr: map<int, Header>): map<int, int> {
    map b | b in hdr && hdr[b].UsedH? :: hdr[b].length
  }

  /** The first order whose blocks hold `size` bytes and a header, or ORDERS. */
  function OrderOf(size: int): nat {
    OrderFrom(size, 0)
  }

  function OrderFrom(size: int, o: nat): (r: nat)
    requires o <= ORDERS
    ensures o <= r <= ORDERS && (r < ORDERS && size >= 0 ==> Fits(size, r))
    ensures forall i :: o <= i < r ==> size + HEADER > SIZES[i]
    decreases ORDERS - o
  {
    if o == ORDERS || size + HEADER <= SIZES[o] then o else OrderFrom(size, o + 1)
  }

  /** get_order. */
  method GetOrder(size: int) returns (order: int)
    requires size >= 0
    ensures order == if OrderOf(size) == ORDERS then -1 else OrderOf(size)
  {
    order := 0;
    while order < ORDERS
      invariant 0 <= order <= ORDERS && OrderOf(size) == OrderFrom(size, order)
    {
      if size + HEADER <= SIZES[order] { return; }
      order := order + 1;
    }
    order := -1;
  }

  /** All pages but one have a block in use. */
  ghost predicate SettledBut(desc: map<int, Desc>, pg: int) {
    forall q :: q in desc && q != pg ==> desc[q].order < ORDERS && desc[q].nfree < NBLOCKS[desc[q].order]
  }

  lemma SettledAny(desc: map<int, Desc>, pg: int)
    requires Settled(desc)
    ensures SettledBut(desc, pg)
  {
  }

  lemma SettledAll(desc: map<int, Desc>, pg: int)
    requires SettledBut(desc, pg)
    requires (pg in desc ==> desc[pg].order < ORDERS && desc[pg].nfree < NBLOCKS[desc[pg].order])
    ensures Settled(desc)
  {
  }

  lemma AddedSettled(desc: map<int, Desc>, desc': map<int, Desc>, pg: int)
    requires Settled(desc) && forall q :: q in desc' && q != pg ==> q in desc && desc'[q] == desc[q]
    ensures SettledBut(desc', pg)
  {
  }

  lemma SameUse(hdr: map<int, Header>, hdr': map<int, Header>)
    requires forall b :: b in hdr ==> b in hdr' && hdr'[b] == hdr[b]
    requires forall b :: b in hdr' && b !in hdr ==> hdr'[b].FreeH?
    ensures InUse(hdr') == InUse(hdr)
  {
    var u, u' := InUse(hdr), InUse(hdr');
    forall b ensures (b in u' <==> b in u) && (b in u ==> u'[b] == u[b]) {
      assert b in hdr ==> hdr'[b] == hdr[b];
      assert b in hdr' && b !in hdr ==> hdr'[b].FreeH?;
    }
  }

  lemma TakenUse(h: Heap, l: Lists, o: nat, length: int)
    requires Ok(h, l) && o < ORDERS && h.first[o] != NULL && h.first[o] in h.desc
    requires h.desc[h.first[o]].firstfree in h.hdr && h.hdr[h.desc[h.first[o]].firstfree].FreeH?
    ensures var b := h.desc[h.first[o]].firstfree;
        b > 0 && b !in InUse(h.hdr) && InUse(Taken(h, o, length).hdr) == InUse(h.hdr)[b := length]
  {
    HasFree(h, l, o);
    PageOfBlock(h.first[o], o, l.free[h.first[o]][0]);
    hide Ok, PageOk, PageOf;
  }

  lemma TakenSettled(h: Heap, l: Lists, o: nat, length: int)
    requires Ok(h, l) && o < ORDERS && h.first[o] != NULL && SettledBut(h.desc, h.first[o]) && h.first[o] in h.desc
    requires h.desc[h.first[o]].firstfree in h.hdr && h.hdr[h.desc[h.first[o]].firstfree].FreeH?
    ensures Settled(Taken(h, o, length).desc)
  {
    HasFree(h, l, o);
    FreePlusLive(h, l, h.first[o]);
    hide Ok, PageOk;
  }

  lemma OnOrder(h: Heap, l: Lists, o: nat, pg: int)
    requires Ok(h, l) && o < ORDERS && Listable(h.desc, o, pg)
    ensures pg in l.pages[o]
  {
    assert OrderOk(h.desc, o, h.first[o], l.pages[o]);
  }

  lemma FirstIs(h: Heap, l: Lists, o: nat)
    requires Ok(h, l) && o < ORDERS && l.pages[o] != []
    ensures h.first[o] == l.pages[o][0] && l.pages[o][0] in h.desc && Distinct(l.pages[o])
  {
    assert OrderOk(h.desc, o, h.first[o], l.pages[o]);
    assert NextAt(h.desc, l.pages[o], 0);
  }

  lemma NextOn(h: Heap, l: Lists, o: nat, k: nat, pg: int)
    requires Ok(h, l) && o < ORDERS && k < |l.pages[o]| && pg in l.pages[o]
    requires forall j :: 0 <= j <= k ==> l.pages[o][j] != pg
    ensures k + 1 < |l.pages[o]| && l.pages[o][k] in h.desc && h.desc[l.pages[o][k]].next == l.pages[o][k + 1]
    ensures l.pages[o][k + 1] in h.desc
  {
    var s := l.pages[o];
    assert OrderOk(h.desc, o, h.first[o], s);
    var i :| 0 <= i < |s| && s[i] == pg;
    assert NextAt(h.desc, s, k) && NextAt(h.desc, s, k + 1);
  }

  lemma ReleasedDesc(h: Heap, l: Lists, o: nat, k: nat)
    requires Ok(h, l) && o < ORDERS && k < |l.pages[o]| && l.pages[o][k] in h.desc
    requires (k > 0 ==> l.pages[o][k - 1] in h.desc)
    requires SettledBut(h.desc, l.pages[o][k])
    ensures Settled(Released(h, l.pages[o], o, k).desc)
    ensures Released(h, l.pages[o], o, k).desc.Keys == h.desc.Keys - {l.pages[o][k]}
  {
    assert OrderOk(h.desc, o, h.first[o], l.pages[o]);
    hide Ok, OrderOk, Passed;
    var d := Passed(h.desc, l.pages[o], k);
    forall q ensures q in d <==> q in h.desc && q != l.pages[o][k] { PassedDesc(h.desc, l.pages[o], k, q); }
    forall q | q in d
      ensures d[q].order < ORDERS && d[q].nfree < NBLOCKS[d[q].order]
    {
      PassedDesc(h.desc, l.pages[o], k, q);
    }
  }

  lemma FreedSettled(h: Heap, l: Lists, b: int)
    requires Ok(h, l) && Settled(h.desc) && PageOf(b) in h.desc && h.desc[PageOf(b)].order < ORDERS
    ensures SettledBut(Freed(h, b).desc, PageOf(b)) && Listable(Freed(h, b).desc, h.desc[PageOf(b)].order, PageOf(b))
  {
    assert PageOk(h.hdr, h.desc[PageOf(b)], PageOf(b), l.free[PageOf(b)]);
    hide Ok, PageOk, PageOf;
  }

  lemma FreedUse(h: Heap, b: int)
    requires PageOf(b) in h.desc && h.desc[PageOf(b)].order < |h.first|
    ensures InUse(Freed(h, b).hdr) == InUse(h.hdr) - {b}
  {
    hide PageOf;
  }

  /** A page is free altogether just when no live block is in it. */
  lemma PageLive(h: Heap, l: Lists, pg: int)
    requires Ok(h, l) && pg in h.desc
    ensures h.desc[pg].order < ORDERS && h.desc[pg].nfree <= NBLOCKS[h.desc[pg].order]
    ensures h.desc[pg].nfree == NBLOCKS[h.desc[pg].order] <==> forall b :: b in InUse(h.hdr) ==> PageOf(b) != pg
  {
    FreePlusLive(h, l, pg);
    var bs := PageBlocks(pg, h.desc[pg].order);
    LiveNone(h.hdr, bs);
    OnThePage(h, l, pg);
    hide Ok, PageBlocks, Live, PageOf, InUse;
    NoneOn(h.hdr, bs, pg);
  }

  /** The headers in a page are those of its blocks. */
  lemma OnThePage(h: Heap, l: Lists, pg: int)
    requires Ok(h, l) && pg in h.desc
    ensures h.desc[pg].order < ORDERS
    ensures forall b :: b in h.hdr ==> (PageOf(b) == pg <==> b in PageBlocks(pg, h.desc[pg].order))
  {
    assert PageOk(h.hdr, h.desc[pg], pg, l.free[pg]);
    hide PageBlocks, PageOf, OrdersOk;
    forall b | b in h.hdr ensures PageOf(b) == pg <==> b in PageBlocks(pg, h.desc[pg].order) {
      assert Home(h.desc, b);
      if b in PageBlocks(pg, h.desc[pg].order) { PageOfBlock(pg, h.desc[pg].order, b); }
    }
  }

  lemma NoneOn(hdr: map<int, Header>, bs: seq<int>, pg: int)
    requires forall b :: b in hdr ==> (PageOf(b) == pg <==> b in bs)
    ensures (forall i :: 0 <= i < |bs| ==> bs[i] !in InUse(hdr)) <==> (forall b :: b in InUse(hdr) ==> PageOf(b) != pg)
  {
    assert forall b :: b in InUse(hdr) ==> b in hdr;
    hide PageOf, InUse;
    forall i | 0 <= i < |bs| ensures bs[i] in InUse(hdr) ==> PageOf(bs[i]) == pg {
      assert bs[i] in bs && (bs[i] in InUse(hdr) ==> bs[i] in hdr);
    }
    forall b | b in InUse(hdr) && PageOf(b) == pg ensures exists i :: 0 <= i < |bs| && bs[i] == b { assert b in hdr; }
  }

  lemma {:induction false} LiveNone(hdr: map<int, Header>, bs: seq<int>)
    ensures Live(hdr, bs) == 0 <==> forall i :: 0 <= i < |bs| ==> bs[i] !in InUse(hdr)
  {
    if bs != [] {
      var n := |bs| - 1;
      LiveNone(hdr, bs[..n]);
      assert bs[n] in InUse(hdr) <==> bs[n] in hdr && hdr[bs[n]].UsedH?;
      assert forall i :: 0 <= i < n ==> bs[..n][i] == bs[i];
    }
  }

  lemma WithoutUse(hdr: map<int, Header>, pg: int)
    requires forall b :: b in InUse(hdr) ==> PageOf(b) != pg
    ensures InUse(WithoutPage(hdr, pg)) == InUse(hdr)
  {
  }

  // ---------------------------------------------------------------- runs

  datatype Op = Malloc(bytes: nat, page: int) | Free(ptr: int, size: int)

  /** What a call does to the live blocks; `p` is what kmalloc returned. */
  function Booked(live: map<int, int>, op: Op, p: int): map<int, int> {
    match op
    case Malloc(bytes, _) => if p == NULL then live else live[p - HEADER := bytes]
    case Free(ptr, size) =>
      var b := ptr - HEADER;
      if b in live && (size == 0 || size == live[b]) then live - {b} else live
  }

  /** The live blocks after a run of calls that returned `ps`. */
  function Ledger(live: map<int, int>, ops: seq<Op>, ps: seq<int>): map<int, int>
    requires |ops| == |ps|
  {
    if ops == [] then live
    else
      var n := |ops| - 1;
      Booked(Ledger(live, ops[..n], ps[..n]), ops[n], ps[n])
  }

  /** No call of the run returned a block that was live at the time. */
  ghost predicate NeverLive(live: map<int, int>, ops: seq<Op>, ps: seq<int>)
    requires |ops| == |ps|
  {
    forall k :: 0 <= k < |ops| ==> NotLive(live, ops, ps, k)
  }

  predicate NotLive(live: map<int, int>, ops: seq<Op>, ps: seq<int>, k: nat)
    requires k < |ops| == |ps|
  {
    ops[k].Malloc? && ps[k] != NULL ==> ps[k] - HEADER !in Ledger(live, ops[..k], ps[..k])
  }

  lemma LedgerStep(live: map<int, int>, ops: seq<Op>, ps: seq<int>, op: Op, p: int)
    requires |ops| == |ps| && NeverLive(live, ops, ps)
    requires op.Malloc? && p != NULL ==> p - HEADER !in Ledger(live, ops, ps)
    ensures Ledger(live, ops + [op], ps + [p]) == Booked(Ledger(live, ops, ps), op, p)
    ensures NeverLive(live, ops + [op], ps + [p])
  {
    var ops', ps' := ops + [op], ps + [p];
    LedgerLast(live, ops, ps, op, p);
    hide Ledger, Booked;
    forall k | 0 <= k < |ops'| ensures NotLive(live, ops', ps', k) {
      LongerPrefix(ops, op, k);
      LongerPrefix(ps, p, k);
      if k == |ops| {
        assert ops[..k] == ops && ps[..k] == ps;
      } else {
        assert NotLive(live, ops, ps, k);
      }
    }
  }

  lemma LedgerLast(live: map<int, int>, ops: seq<Op>, ps: seq<int>, op: Op, p: int)
    requires |ops| == |ps|
    ensures Ledger(live, ops + [op], ps + [p]) == Booked(Ledger(live, ops, ps), op, p)
  {
    hide Booked;
    assert (ops + [op])[..|ops|] == ops && (ps + [p])[..|ps|] == ps;
  }

  lemma LongerPrefix<T>(s: seq<T>, x: T, k: nat)
    requires k <= |s|
    ensures (s + [x])[..k] == s[..k]
  {
  }

  /** A page that can be had. */
  ghost predicate Offered(h: Heap, page: int) {
    page > 0 && page % PAGE_SIZE == 0 && page !in h.desc
  }

  /** kmalloc answers NULL only for a size without a class, or when it needs a page and there is none. */
  ghost predicate Answered(h: Heap, op: Op, p: int) {
    op.Malloc? ==>
      (p == NULL <==> OrderOf(op.bytes) == ORDERS || (!HasRoom(h, OrderOf(op.bytes)) && !Offered(h, op.page)))
  }

  /** The heap before each call, with the blocks that the ledger has, and the answer to the call. */
  ghost predicate AllAnswered(live: map<int, int>, ops: seq<Op>, ps: seq<int>, hs: seq<Heap>)
    requires |ops| == |ps| == |hs|
  {
    forall k :: 0 <= k < |ops| ==> AnsweredAt(live, ops, ps, hs, k)
  }

  ghost predicate AnsweredAt(live: map<int, int>, ops: seq<Op>, ps: seq<int>, hs: seq<Heap>, k: nat)
    requires k < |ops| == |ps| == |hs|
  {
    InUse(hs[k].hdr) == Ledger(live, ops[..k], ps[..k]) && Answered(hs[k], ops[k], ps[k])
  }

  lemma AnsweredNext(live: map<int, int>, ops: seq<Op>, ps: seq<int>, hs: seq<Heap>, op: Op, p: int, h: Heap)
    requires |ops| == |ps| == |hs| && AllAnswered(live, ops, ps, hs)
    requires InUse(h.hdr) == Ledger(live, ops, ps) && Answered(h, op, p)
    ensures AllAnswered(live, ops + [op], ps + [p], hs + [h])
  {
    hide Ledger, InUse, Answered;
    var ops', ps', hs' := ops + [op], ps + [p], hs + [h];
    forall k: nat | k < |ops'| ensures AnsweredAt(live, ops', ps', hs', k) {
      assert ops'[..k] == ops[..k] && ps'[..k] == ps[..k];
      if k < |ops| {
        assert AnsweredAt(live, ops, ps, hs, k);
      } else {
        assert ops[..k] == ops && ps[..k] == ps;
      }
    }
  }

  /** Any run of calls keeps the allocator in order, and the live blocks are those the ledger of the calls says; a
      page offered that is in use counts as none, and a pointer that is no block is not freed. */
  method Run(a: Allocator, ops: seq<Op>) returns (ps: seq<int>, ghost hs: seq<Heap>)
    requires a.Valid()
    modifies a
    ensures a.Valid() && |ps| == |hs| == |ops| && AllAnswered(InUse(old(a.h.hdr)), ops, ps, hs)
    ensures InUse(a.h.hdr) == Ledger(InUse(old(a.h.hdr)), ops, ps) && NeverLive(InUse(old(a.h.hdr)), ops, ps)
  {
    hide Ok, Settled, InUse, Ledger, NeverLive, Answered, AllAnswered, AnsweredAt;
    ps, hs := [], [];
    NoCalls(InUse(a.h.hdr));
    for k := 0 to |ops|
      invariant a.Valid() && |ps| == |hs| == k && AllAnswered(InUse(old(a.h.hdr)), ops[..k], ps, hs)
      invariant InUse(a.h.hdr) == Ledger(InUse(old(a.h.hdr)), ops[..k], ps)
      invariant NeverLive(InUse(old(a.h.hdr)), ops[..k], ps)
    {
      ghost var was := a.h;
      var p := OneCall(a, ops[k]);
      LedgerStep(InUse(old(a.h.hdr)), ops[..k], ps, ops[k], p);
      AnsweredNext(InUse(old(a.h.hdr)), ops[..k], ps, hs, ops[k], p, was);
      assert ops[..k + 1] == ops[..k] + [ops[k]];
      ps, hs := ps + [p], hs + [was];
    }
    assert ops[..|ops|] == ops;
  }

  lemma NoCalls(live: map<int, int>)
    ensures Ledger(live, [], []) == live && NeverLive(live, [], []) && AllAnswered(live, [], [], [])
  {
  }

  method OneCall(a: Allocator, op: Op) returns (p: int)
    requires a.Valid()
    modifies a
    ensures a.Valid() && InUse(a.h.hdr) == Booked(InUse(old(a.h.hdr)), op, p)
    ensures op.Malloc? && p != NULL ==> p - HEADER !in InUse(old(a.h.hdr))
    ensures Answered(old(a.h), op, p)
  {
    hide Ok, Settled, HasRoom;
    p := NULL;
    match op {
      case Malloc(bytes, page) =>
        p := a.Kmalloc(bytes, if page > 0 && page % PAGE_SIZE == 0 && page !in a.h.desc then page else NULL);
      case Free(ptr, size) =>
        if ptr - HEADER in a.h.hdr { var ok := a.KfreeS(ptr, size); }
    }
  }
}
