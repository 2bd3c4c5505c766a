/** Blocks threaded through pages: the layout, the free chains and the page lists of kmalloc (mm/kmalloc.c), as values.
    */
module KmallocHeap {
  import opened Basics

  const NULL: int := 0
  const PAGE_SIZE: int := 4096
  const HEADER: int := 8            // sizeof (struct block_header)
  const DESC: int := 16             // sizeof (struct page_descriptor)
  const ORDERS: nat := 8

  const SIZES: seq<int> := [32, 64, 128, 252, 508, 1020, 2040, 4080]
  const NBLOCKS: seq<int> := [127, 63, 31, 16, 8, 4, 2, 1]

  /** A block header: free with a link, or used with the length asked for. */
  datatype Header = FreeH(next: int) | UsedH(length: int)

  /** The descriptor at the front of a page. */
  datatype Desc = Desc(next: int, firstfree: int, order: nat, nfree: int)

  // ---------------------------------------------------------------- layout

  /** The blocks of a page, one after the other. */
  function Blocks(p: int, size: int, n: nat): seq<int>
    decreases n
  {
    if n == 0 then [] else [p] + Blocks(p + size, size, n - 1)
  }

  lemma {:induction false} BlockAt(p: int, size: int, n: nat, k: nat)
    requires k < n
    ensures |Blocks(p, size, n)| == n && Blocks(p, size, n)[k] == p + k * size
    decreases n
  {
    if n > 1 {
      BlockAt(p + size, size, n - 1, if k == 0 then 0 else k - 1);
    }
    if k > 0 { assert (p + size) + (k - 1) * size == p + k * size; }
  }

  /** The address of the page a block is in. */
  /** Each class has as many blocks as fit behind the descriptor of a page, and from 252 bytes on they are as large as
      that many can be in words of four bytes. */
  lemma ClassesFill(o: nat)
    requires o < ORDERS
    ensures |SIZES| == |NBLOCKS| == ORDERS
    ensures DESC + NBLOCKS[o] * SIZES[o] <= PAGE_SIZE < DESC + (NBLOCKS[o] + 1) * SIZES[o]
    ensures o < 3 ==> SIZES[o] == 32 || (o > 0 && SIZES[o] == 2 * SIZES[o - 1])
    ensures o >= 3 ==> SIZES[o] % 4 == 0 && PAGE_SIZE < DESC + NBLOCKS[o] * (SIZES[o] + 4)
    ensures o >= 3 ==> NBLOCKS[7] == 1 && (o < 7 ==> NBLOCKS[o] == 2 * NBLOCKS[o + 1])
  {
  }

  function PageOf(b: int): int {
    b / PAGE_SIZE * PAGE_SIZE
  }

  function PageBlocks(pg: int, order: nat): seq<int>
    requires order < ORDERS
  {
    Blocks(pg + DESC, SIZES[order], NBLOCKS[order])
  }

  /** Blocks lie behind the descriptor, inside their page and one behind the other. */
  lemma InPage(pg: int, order: nat, k: nat)
    requires order < ORDERS && k < NBLOCKS[order]
    ensures |PageBlocks(pg, order)| == NBLOCKS[order]
    ensures var b := PageBlocks(pg, order)[k];
        b == pg + DESC + k * SIZES[order] && pg + DESC <= b && b + SIZES[order] <= pg + PAGE_SIZE
  {
    var s, n := SIZES[order], NBLOCKS[order];
    BlockAt(pg + DESC, s, n, k);
    assert DESC + n * s <= PAGE_SIZE;
    assert (k + 1) * s <= n * s;
    assert k * s + s == (k + 1) * s;
  }

  lemma PageOfAddress(pg: int, b: int)
    requires pg % PAGE_SIZE == 0 && pg <= b < pg + PAGE_SIZE
    ensures PageOf(b) == pg
  {
  }

  lemma PageOfBlock(pg: int, order: nat, b: int)
    requires order < ORDERS && pg % PAGE_SIZE == 0 && b in PageBlocks(pg, order)
    ensures PageOf(b) == pg && pg + DESC <= b && b + SIZES[order] <= pg + PAGE_SIZE
  {
    BlocksLength(pg + DESC, SIZES[order], NBLOCKS[order]);
    var k :| 0 <= k < |PageBlocks(pg, order)| && PageBlocks(pg, order)[k] == b;
    InPage(pg, order, k);
    hide PageOf;
    PageOfAddress(pg, b);
  }

  lemma {:induction false} BlocksLength(p: int, size: int, n: nat)
    ensures |Blocks(p, size, n)| == n
    decreases n
  {
    if n > 0 { BlocksLength(p + size, size, n - 1); }
  }

  /** Two blocks of one page do not overlap. */
  lemma BlocksApart(pg: int, order: nat, b: int, c: int)
    requires order < ORDERS && b in PageBlocks(pg, order) && c in PageBlocks(pg, order) && b != c
    ensures b + SIZES[order] <= c || c + SIZES[order] <= b
  {
    BlocksLength(pg + DESC, SIZES[order], NBLOCKS[order]);
    var j :| 0 <= j < |PageBlocks(pg, order)| && PageBlocks(pg, order)[j] == b;
    var k :| 0 <= k < |PageBlocks(pg, order)| && PageBlocks(pg, order)[k] == c;
    InPage(pg, order, j);
    InPage(pg, order, k);
    Steps(j, k, SIZES[order]);
    Steps(k, j, SIZES[order]);
  }

  lemma Steps(j: nat, k: nat, s: int)
    requires s >= 0
    ensures j < k ==> j * s + s <= k * s
  {
    if j < k { assert (j + 1) * s <= k * s; }
  }

  // ---------------------------------------------------------------- linked lists

  function First(s: seq<int>): int {
    if s == [] then NULL else s[0]
  }

  function After(s: seq<int>, i: int): int {
    if 0 <= i && i + 1 < |s| then s[i + 1] else NULL
  }

  // ---------------------------------------------------------------- the free chain of a page

  /** Block `b` of the chain links to the one behind it. */
  predicate FreeAt(hdr: map<int, Header>, c: seq<int>, i: int)
    requires 0 <= i < |c|
  {
    c[i] in hdr && hdr[c[i]] == FreeH(After(c, i))
  }

  /** The chain `c` holds the free blocks of a page, each once, and `nfree` counts them. */
  ghost predicate PageOk(hdr: map<int, Header>, d: Desc, pg: int, c: seq<int>) {
    && d.order < ORDERS && pg % PAGE_SIZE == 0 && pg > 0
    && Distinct(c) && d.firstfree == First(c) && d.nfree == |c|
    && (forall i :: 0 <= i < |c| ==> FreeAt(hdr, c, i))
    && (forall b :: b in c ==> b in PageBlocks(pg, d.order))
    && (forall b :: b in PageBlocks(pg, d.order) ==> b in hdr && (hdr[b].FreeH? ==> b in c) && (hdr[b].UsedH? ==>
        Fits(hdr[b].length, d.order)))
  }

  /** A length with its header fits a block of this order. */
  predicate Fits(length: int, order: nat) {
    order < ORDERS && 0 <= length && length + HEADER <= SIZES[order]
  }

  /** The first free block of a page put to use. */
  lemma TakeFirst(hdr: map<int, Header>, d: Desc, pg: int, c: seq<int>, length: int)
    requires PageOk(hdr, d, pg, c) && c != [] && Fits(length, d.order)
    ensures c[0] in hdr && hdr[c[0]].FreeH?
    ensures PageOk(hdr[c[0] := UsedH(length)], d.(firstfree := hdr[c[0]].next, nfree := d.nfree - 1), pg, c[1..])
  {
    var hdr', c' := hdr[c[0] := UsedH(length)], c[1..];
    assert FreeAt(hdr, c, 0);
    forall i | 0 <= i < |c'| ensures FreeAt(hdr', c', i) { assert FreeAt(hdr, c, i + 1); }
    assert forall b :: b in c <==> b == c[0] || b in c';
  }

  /** A used block of a page put in front of its chain. */
  lemma GiveBack(hdr: map<int, Header>, d: Desc, pg: int, c: seq<int>, b: int)
    requires PageOk(hdr, d, pg, c) && b in PageBlocks(pg, d.order) && b in hdr && hdr[b].UsedH?
    ensures PageOk(hdr[b := FreeH(d.firstfree)], d.(firstfree := b, nfree := d.nfree + 1), pg, [b] + c)
  {
    var hdr', c' := hdr[b := FreeH(d.firstfree)], [b] + c;
    forall i | 0 <= i < |c| ensures c[i] != b { assert FreeAt(hdr, c, i); }
    forall i | 0 <= i < |c'| ensures FreeAt(hdr', c', i) {
      if i > 0 { assert FreeAt(hdr, c, i - 1); }
    }
  }

  /** Headers of other pages play no part. */
  lemma PageKept(hdr: map<int, Header>, hdr': map<int, Header>, d: Desc, d': Desc, pg: int, c: seq<int>)
    requires PageOk(hdr, d, pg, c) && d' == d.(next := d'.next)
    requires forall b :: b in PageBlocks(pg, d.order) && b in hdr ==> b in hdr' && hdr'[b] == hdr[b]
    ensures PageOk(hdr', d', pg, c)
  {
    forall i | 0 <= i < |c| ensures FreeAt(hdr', c, i) { assert FreeAt(hdr, c, i) && c[i] in c; }
  }

  // ---------------------------------------------------------------- the pages of an order

  predicate NextAt(desc: map<int, Desc>, s: seq<int>, i: int)
    requires 0 <= i < |s|
  {
    s[i] in desc && desc[s[i]].next == After(s, i)
  }

  predicate Listable(desc: map<int, Desc>, o: nat, pg: int) {
    pg in desc && desc[pg].order == o && desc[pg].nfree > 0
  }

  /** `s` holds the pages of order `o` that have a free block, each once. */
  ghost predicate OrderOk(desc: map<int, Desc>, o: nat, first: int, s: seq<int>) {
    && Distinct(s) && first == First(s)
    && (forall i :: 0 <= i < |s| ==> NextAt(desc, s, i))
    && (forall pg :: pg in s <==> Listable(desc, o, pg))
  }

  /** Pages without a free block are linked to nothing. */
  ghost predicate FullUnlinked(desc: map<int, Desc>) {
    forall pg :: pg in desc && desc[pg].nfree <= 0 ==> desc[pg].next == NULL
  }

  /** A page of order `o` that is on no list pushed in front. */
  lemma PushPage(desc: map<int, Desc>, o: nat, first: int, s: seq<int>, pg: int, d: Desc)
    requires OrderOk(desc, o, first, s) && !Listable(desc, o, pg) && d.order == o && d.nfree > 0 && d.next == first
    ensures OrderOk(desc[pg := d], o, pg, [pg] + s)
  {
    var desc', s' := desc[pg := d], [pg] + s;
    forall i | 0 <= i < |s'| ensures NextAt(desc', s', i) {
      if i > 0 { assert NextAt(desc, s, i - 1) && s[i - 1] in s; }
    }
    forall p ensures p in s' <==> Listable(desc', o, p) { assert p in s <==> Listable(desc, o, p); }
  }

  /** The first page, its last block taken, goes off the list. */
  lemma PopPage(desc: map<int, Desc>, o: nat, first: int, s: seq<int>, d: Desc)
    requires OrderOk(desc, o, first, s) && s != [] && d.nfree <= 0
    ensures first in desc && OrderOk(desc[first := d], o, desc[first].next, s[1..])
  {
    assert NextAt(desc, s, 0);
    var desc', s' := desc[first := d], s[1..];
    forall i | 0 <= i < |s'| ensures NextAt(desc', s', i) { assert NextAt(desc, s, i + 1); }
    assert forall p :: p in s <==> p == first || p in s';
    forall p ensures p in s' <==> Listable(desc', o, p) { assert p in s <==> Listable(desc, o, p); }
  }

  /** The descriptors after page `s[k]` is passed over by the one before it and released. */
  function Passed(desc: map<int, Desc>, s: seq<int>, k: nat): map<int, Desc>
    requires k < |s| && s[k] in desc && (k > 0 ==> s[k - 1] in desc)
  {
    (if k == 0 then desc else desc[s[k - 1] := desc[s[k - 1]].(next := desc[s[k]].next)]) - {s[k]}
  }

  lemma DropPage(desc: map<int, Desc>, o: nat, first: int, s: seq<int>, k: nat)
    requires OrderOk(desc, o, first, s) && k < |s|
    ensures s[k] in desc && (k > 0 ==> s[k - 1] in desc)
    ensures OrderOk(Passed(desc, s, k), o, if k == 0 then desc[s[k]].next else first, Remove(s, k))
  {
    RemoveAt(s, k);
    RemoveIn(s, k);
    assert NextAt(desc, s, k) && (k > 0 ==> NextAt(desc, s, k - 1));
    var desc', s' := Passed(desc, s, k), Remove(s, k);
    forall i | 0 <= i < |s'| ensures NextAt(desc', s', i) {
      var j := if i < k then i else i + 1;
      assert NextAt(desc, s, j) && s[j] != s[k];
      if k > 0 && j != k - 1 { assert s[j] != s[k - 1]; }
    }
    forall p ensures p in s' <==> Listable(desc', o, p) { assert p in s <==> Listable(desc, o, p); }
  }

  /** A list is not changed by what happens to pages off it. */
  lemma OrderKept(desc: map<int, Desc>, desc': map<int, Desc>, o: nat, first: int, s: seq<int>)
    requires OrderOk(desc, o, first, s)
    requires forall pg ::
      Listable(desc, o, pg) || Listable(desc', o, pg) ==> pg in desc && pg in desc' && desc'[pg].next == desc[pg].next
    requires forall pg :: Listable(desc, o, pg) <==> Listable(desc', o, pg)
    ensures OrderOk(desc', o, first, s)
  {
    forall i | 0 <= i < |s| ensures NextAt(desc', s, i) { assert NextAt(desc, s, i) && s[i] in s; }
  }
}
