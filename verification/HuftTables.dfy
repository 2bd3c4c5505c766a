/** The multi-level lookup tables of zBoot/inflate.c and the routine that builds them. */
module HuftTables {
  import opened Bits
  import opened Canonical

  /** A table entry; a pointer to a table is its index in the list of allocated tables.
      `Unset` is memory never written, `Junk` an entry made from an unwritten cell of `v`. */
  datatype Huft =
    | Unset
    | Junk(b: nat)
    | Entry(e: nat, b: nat, n: nat)
    | Link(e: nat, b: nat, t: nat)

  /** The number of simple codes, and base values and extra bits of the others. */
  datatype Values = Values(s: nat, d: seq<nat>, e: seq<nat>)
  {
    predicate Covers(n: nat) {
      (n > s ==> n - s <= |d| && n - s <= |e|) && forall j :: 0 <= j < |e| ==> e[j] <= 16 || e[j] == 99
    }
  }

  const UNWRITTEN: int := -1

  function EntryFor(vals: Values, sym: nat, b: nat): Huft
    requires vals.Covers(sym + 1)
  {
    if sym < vals.s then Entry(if sym < 256 then 16 else 15, b, sym)
    else Entry(vals.e[sym - vals.s], b, vals.d[sym - vals.s])
  }

  /** Position in `v` of the first symbol of length `k`. */
  function Offset(c: seq<nat>, k: nat): nat
    requires |c| == BMAX + 1 && k <= BMAX
  {
    if k <= 1 then 0 else Offset(c, k - 1) + c[k - 1]
  }

  /** `w` is a whole number of lookup widths. */
  predicate Level(w: nat, l: nat) {
    w == 0 || (0 < l <= w && Level(w - l, l))
  }

  /** What stays fixed while the tables are filled: padded counts, longest length, lookup width,
      symbols in order of length and number of symbols. */
  datatype Codes = Codes(c: seq<nat>, g: nat, l: nat, v: seq<int>, n: nat, vals: Values)
  {
    predicate Valid() {
      Full(c, g) && 1 <= l <= g && |v| == n && vals.Covers(n) && forall t :: 0 <= t < n ==> UNWRITTEN <= v[t] < n
    }

    /** The entry for the `q`-th code of length `k` in a table that starts `w` bits in. */
    function Leaf(k: nat, q: nat, w: nat): Huft
      requires Valid() && 1 <= k <= g && w <= k
    {
      var t := Offset(c, k) + q;
      if t >= n then Entry(99, k - w, 0)
      else if v[t] == UNWRITTEN then Junk(k - w)
      else EntryFor(vals, v[t], k - w)
    }

    /** No table below the root is made wider than the lookup width: fewer than `2^l` patterns
        of `w + l` bits are left for codes of at least that length. */
    predicate WidthOk()
      requires Valid()
    {
      forall w :: l <= w && w + l < g && Level(w, l) ==> Pow2(w + l) - NextCode(c, w + l) < Pow2(l)
    }
  }

  /** The place of a table: bits before it, those bits, bits it looks up, length of its first code. */
  datatype Node = Node(w: nat, prefix: nat, width: nat, first: nat)

  ghost predicate NodeOk(cs: Codes, nd: Node)
    requires cs.Valid()
  {
    && nd.prefix < Pow2(nd.w) && nd.width >= 1 && nd.w + nd.width <= cs.g && Level(nd.w, cs.l)
    && nd.w < nd.first <= cs.g
    && NextCode(cs.c, nd.first) <= Shl(Rev(nd.prefix, nd.w), nd.first - nd.w) < Limit(cs.c, nd.first)
    && Sized(cs, nd)
    && (nd.w == 0 ==> nd.width == cs.l)
    && (nd.w > 0 ==> Widths(cs, nd.w, Rev(nd.prefix, nd.w), nd.first, nd.width))
  }

  /** The table is as wide as allowed, or its codes end within it. */
  ghost predicate Sized(cs: Codes, nd: Node)
    requires cs.Valid() && nd.w + nd.width <= cs.g && nd.width >= 1
  {
    || nd.width >= cs.l || nd.w + nd.width >= cs.g
    || Limit(cs.c, nd.w + nd.width) >= Shl(Rev(nd.prefix, nd.w) + 1, nd.width)
  }

  /** When the size search stays within the lookup width, and when it oversteps it. */
  ghost predicate Widths(cs: Codes, w: nat, r: nat, k: nat, j: nat)
    requires cs.Valid() && w < k <= cs.g
  {
    && (k < w + cs.l || cs.g <= w + cs.l ==> j <= cs.l)
    && (k > w + cs.l ==> j > cs.l)
    && (k == w + cs.l && Limit(cs.c, k) < Shl(r + 1, cs.l) ==> j > cs.l)
  }

  lemma TopFills(c: seq<nat>, g: nat, r: nat, w: nat, k: nat)
    requires Full(c, g) && w < k <= g && r < Pow2(w)
    ensures k == g ==> Limit(c, k) >= Shl(r + 1, k - w)
  {
    ShlMono(r + 1, Pow2(w), k - w);
    ShlPow2(w, k - w);
  }

  /** The codes up to `i` bits into a table do not fill it: one of that width would leave patterns over. */
  ghost predicate Unfilled(cs: Codes, r: nat, w: nat, i: nat) {
    cs.Valid() && w + i <= cs.g && Limit(cs.c, w + i) < Shl(r + 1, i)
  }

  /** One bit wider: twice as many patterns, less the codes of that length. */
  lemma PatternsLeft(cs: Codes, r: nat, w: nat, j: nat, f: nat)
    requires cs.Valid() && j > 0 && 2 <= w + j <= cs.g && f + Limit(cs.c, w + j - 1) == Shl(r + 1, j - 1)
    ensures 2 * f - cs.c[w + j] + Limit(cs.c, w + j) == Shl(r + 1, j)
    ensures 2 * f > cs.c[w + j] ==> Unfilled(cs, r, w, j)
    ensures 2 * f <= cs.c[w + j] ==> Limit(cs.c, w + j) >= Shl(r + 1, j)
  {
  }

  /** Widen a table by one bit at a time until its codes fit, up to `z` bits; `f0` patterns are
      left over once the codes of length `k` are placed. */
  method WidenTable(cs: Codes, ghost r: nat, w: nat, k: nat, f0: nat, z: nat) returns (j: nat)
    requires cs.Valid() && w < k < cs.g && w + z <= cs.g
    requires f0 > 0 && f0 + Limit(cs.c, k) == Shl(r + 1, k - w)
    ensures k - w + 1 <= j && w + j <= cs.g
    ensures if k - w < z then j <= z else j == k - w + 1
    ensures j >= z || Limit(cs.c, w + j) >= Shl(r + 1, j)
    ensures forall i: nat :: k - w < i < j ==> Unfilled(cs, r, w, i)
  {
    hide Limit, Shl, Unfilled;
    var f, xp := f0, k;
    j := k - w + 1;
    while j < z
      invariant k - w + 1 <= j && w + j <= cs.g && xp == w + j - 1
      invariant if k - w < z then j <= z else j == k - w + 1
      invariant f > 0 && f + Limit(cs.c, xp) == Shl(r + 1, j - 1)
      invariant forall i: nat :: k - w < i < j ==> Unfilled(cs, r, w, i)
      decreases z - j
    {
      PatternsLeft(cs, r, w, j, f);
      xp := xp + 1;
      f := f * 2;
      if f <= cs.c[xp] {
        break;
      }
      f := f - cs.c[xp];
      j := j + 1;
    }
  }

  /** The size search for a new table that starts `w` bits in, `r` being the patterns before it. */
  method SizeTable(cs: Codes, ghost r: nat, w: nat, k: nat, a: nat) returns (j: nat)
    requires cs.Valid() && w < k <= cs.g
    requires r < Pow2(w)
    requires NextCode(cs.c, k) <= Shl(r, k - w) < Limit(cs.c, k) && a + 1 == Limit(cs.c, k) - Shl(r, k - w)
    ensures 1 <= k - w <= j && w + j <= cs.g
    ensures j >= cs.l || w + j >= cs.g || Limit(cs.c, w + j) >= Shl(r + 1, j)
    ensures Widths(cs, w, r, k, j)
    ensures forall i: nat :: k - w <= i < j ==> Unfilled(cs, r, w, i)
  {
    hide NextCode, Shl;
    var z := if cs.g - w > cs.l then cs.l else cs.g - w;
    var f := Pow2(k - w);
    j := k - w;
    ShlAdd(r, 1, k - w);
    ShlPow2(0, k - w);
    if f > a + 1 {
      TopFills(cs.c, cs.g, r, w, k);
      j := WidenTable(cs, r, w, k, f - (a + 1), z);
    }
  }

  // ---------------------------------------------------------------- entries and paths

  /** The bits that lead to entry `idx` of a table. */
  function Path(nd: Node, idx: nat): nat {
    nd.prefix + Shl(idx, nd.w)
  }

  /** The entry of a table that a stream selects. */
  function Slot(nd: Node, v: nat): nat {
    Low(Shr(v, nd.w), nd.width)
  }

  /** The stream passes through the table. */
  predicate Through(nd: Node, v: nat) {
    Low(v, nd.w) == nd.prefix
  }

  /** A code entry stands for the code its own path spells. */
  ghost predicate LeafOk(cs: Codes, nd: Node, idx: nat, ent: Huft)
    requires cs.Valid()
  {
    && (ent.Entry? || ent.Junk?)
    && 1 <= ent.b <= cs.l && ent.b <= nd.width && nd.w + ent.b <= cs.g
    && HasLength(cs.c, nd.w + ent.b, Path(nd, idx))
    && ent == cs.Leaf(nd.w + ent.b, Rev(Path(nd, idx), nd.w + ent.b) - NextCode(cs.c, nd.w + ent.b), nd.w)
  }

  /** A link leads to the table of its own path. */
  ghost predicate LinkOk(cs: Codes, nodes: seq<Node>, t: nat, idx: nat, ent: Huft)
    requires t < |nodes|
  {
    && ent.Link? && t < ent.t < |nodes| && idx < Pow2(cs.l) && nodes[t].width >= cs.l
    && ent.b == cs.l && ent.e == 16 + nodes[ent.t].width
    && nodes[ent.t].w == nodes[t].w + cs.l && nodes[ent.t].prefix == Path(nodes[t], idx)
  }

  ghost predicate EntryOk(cs: Codes, nodes: seq<Node>, t: nat, idx: nat, ent: Huft)
    requires cs.Valid() && t < |nodes|
  {
    ent.Unset? || LeafOk(cs, nodes[t], idx, ent) || LinkOk(cs, nodes, t, idx, ent)
  }

  ghost predicate TablesOk(cs: Codes, nodes: seq<Node>, tables: seq<seq<Huft>>)
    requires cs.Valid()
  {
    && |tables| == |nodes|
    && (forall t :: 0 <= t < |nodes| ==> NodeOk(cs, nodes[t]) && |tables[t]| >= Pow2(nodes[t].width))
    && (forall t, idx :: 0 <= t < |nodes| && 0 <= idx < |tables[t]| ==> EntryOk(cs, nodes, t, idx, tables[t][idx]))
  }

  lemma PathSplit(nd: Node, idx: nat)
    requires nd.prefix < Pow2(nd.w)
    ensures Low(Path(nd, idx), nd.w) == nd.prefix && Shr(Path(nd, idx), nd.w) == idx
  {
    Separate(nd.prefix, idx, nd.w);
  }

  /** A stream agrees with the path of its slot. */
  lemma SlotPath(nd: Node, v: nat)
    requires Through(nd, v)
    ensures Low(v, nd.w + nd.width) == Path(nd, Slot(nd, v))
    ensures Slot(nd, v) < Pow2(nd.width)
  {
    LowSplit(v, nd.w, nd.width);
  }

  lemma SlotRev(nd: Node, v: nat, k: nat)
    requires Through(nd, v) && k <= nd.w + nd.width
    ensures Rev(v, k) == Rev(Path(nd, Slot(nd, v)), k)
  {
    SlotPath(nd, v);
    LowLow(v, k, nd.w + nd.width);
    RevEqual(v, Path(nd, Slot(nd, v)), k);
  }

  /** An index in the class of `i >> w` spells the code `i`. */
  lemma ClassPath(nd: Node, idx: nat, i: nat, k: nat)
    requires nd.prefix == Low(i, nd.w) && nd.w <= k && i < Pow2(k)
    requires Low(idx, k - nd.w) == Shr(i, nd.w)
    ensures Rev(Path(nd, idx), k) == Rev(i, k)
  {
    PathSplit(nd, idx);
    LowSplit(Path(nd, idx), nd.w, k - nd.w);
    Recombine(i, nd.w);
    LowSmall(i, k);
    RevEqual(Path(nd, idx), i, k);
  }

  /** A stream that starts with the code `i` selects an index in the class of `i >> w`. */
  lemma SlotClass(nd: Node, v: nat, i: nat, k: nat)
    requires nd.w <= k <= nd.w + nd.width && Low(v, k) == i
    ensures Low(Slot(nd, v), k - nd.w) == Shr(i, nd.w)
  {
    LowLow(Shr(v, nd.w), k - nd.w, nd.width);
    LowSplit(v, nd.w, k - nd.w);
    Separate(Low(v, nd.w), Low(Shr(v, nd.w), k - nd.w), nd.w);
  }

  /** A code longer than a table's last bit does not fit in the codes that end there. */
  lemma CodesEndAfter(c: seq<nat>, w: nat, width: nat, i: nat, k: nat)
    requires |c| == BMAX + 1 && 1 <= w + width < k <= BMAX && NextCode(c, k) <= Rev(i, k)
    ensures Limit(c, w + width) < Shl(Rev(i, w) + 1, width)
  {
    NoShorter(c, w + width, k, i);
    RevBounds(i, w + width, w);
  }

  /** A table too narrow for a code that passes through it has the full lookup width. */
  lemma WideEnough(cs: Codes, nd: Node, i: nat, k: nat)
    requires cs.Valid() && nd.width >= 1 && nd.w + nd.width <= cs.g && Sized(cs, nd)
    requires Through(nd, i) && k <= cs.g && NextCode(cs.c, k) <= Rev(i, k) && nd.w + nd.width < k
    ensures nd.width >= cs.l
  {
    CodesEndAfter(cs.c, nd.w, nd.width, i, k);
    RevLow(i, nd.w);
  }

  // ---------------------------------------------------------------- the state of the filling loop

  /** Allocated tables, table stack, saved codes, level, bits before the level, current code. */
  datatype Work = Work(tables: seq<seq<Huft>>, u: seq<nat>, x: seq<nat>, h: int, w: int, i: nat)

  ghost predicate OnStack(u: seq<nat>, h: int, t: nat)
    requires h < |u|
  {
    exists j :: 0 <= j <= h && u[j] == t
  }

  /** The tables on the path of the current code, root first. */
  ghost predicate Levels(cs: Codes, nodes: seq<Node>, wk: Work)
    requires cs.Valid()
  {
    && -1 <= wk.h < BMAX == |wk.u| && |wk.x| == BMAX + 1 && |wk.tables| == |nodes|
    && (wk.h == -1 ==> wk.w + cs.l == 0 && nodes == [] && wk.i == 0)
    && wk.x[0] == 0
    && (forall j :: 0 <= j <= wk.h ==>
        wk.u[j] < |nodes| && j <= nodes[wk.u[j]].w && nodes[wk.u[j]].prefix == wk.x[j] && Through(nodes[wk.u[j]], wk.i))
    && (wk.h >= 0 ==> wk.u[0] == 0 && nodes[0].w == 0 && nodes[wk.u[wk.h]].w == wk.w)
    && (forall j, j' :: 0 <= j < j' <= wk.h ==> nodes[wk.u[j]].w + cs.l <= nodes[wk.u[j']].w)
  }

  /** Each table of the stack is linked to the next. */
  ghost predicate Stack(cs: Codes, nodes: seq<Node>, wk: Work)
    requires cs.Valid()
  {
    Levels(cs, nodes, wk) && forall j :: 0 <= j < wk.h ==> Linked(cs, nodes, wk, j)
  }

  ghost predicate Linked(cs: Codes, nodes: seq<Node>, wk: Work, j: nat)
    requires j + 1 < |wk.u| && j + 1 < |wk.x| && wk.u[j] < |nodes| && wk.u[j + 1] < |nodes| && |wk.tables| == |nodes|
  {
    var nd := nodes[wk.u[j]];
    var at := Slot(nd, wk.x[j + 1]);
    && nodes[wk.u[j + 1]].w == nd.w + cs.l && nd.width >= cs.l
    && at < |wk.tables[wk.u[j]]| && wk.tables[wk.u[j]][at].Link?
  }

  /** Tables that have left the stack are behind the current code. */
  ghost predicate Finished(nodes: seq<Node>, wk: Work, k: nat, code: nat)
    requires wk.h < |wk.u|
  {
    forall t :: 0 <= t < |nodes| ==>
      OnStack(wk.u, wk.h, t) || (nodes[t].w <= k && Shl(Rev(nodes[t].prefix, nodes[t].w) + 1, k - nodes[t].w) <= code)
  }

  /** Every stream behind the current code finds an entry in every table it passes through. */
  ghost predicate Covered(nodes: seq<Node>, tables: seq<seq<Huft>>, k: nat, code: nat) {
    forall t: nat, v: nat :: t < |nodes| && t < |tables| && Through(nodes[t], v) && Rev(v, k) < code ==>
      Slot(nodes[t], v) < |tables[t]| && !tables[t][Slot(nodes[t], v)].Unset?
  }

  /** The loop's invariant when codes below `code`, of length `k`, have been entered. */
  ghost predicate Inv(cs: Codes, nodes: seq<Node>, wk: Work, k: nat, code: nat)
    requires cs.Valid()
  {
    && 1 <= k <= cs.g
    && TablesOk(cs, nodes, wk.tables)
    && Stack(cs, nodes, wk)
    && Finished(nodes, wk, k, code)
    && (cs.WidthOk() ==> Covered(nodes, wk.tables, k, code))
    && wk.w < k && wk.i < Pow2(k) && (wk.h >= 0 ==> wk.i < Pow2(wk.w + cs.l))
    && (code < Pow2(k) ==> Rev(wk.i, k) == code)
  }

  /** One code entry replicated through a table: from the code's own index on, at every step of `f`, which is two to the
      `n`. */
  method FillTable(q: seq<Huft>, start: nat, n: nat, r: Huft) returns (q': seq<Huft>)
    requires start < Pow2(n)
    ensures |q'| == |q|
    ensures forall j :: 0 <= j < |q| ==> q'[j] == if Low(j, n) == start then r else q[j]
  {
    q' := q;
    var j, f := start, Pow2(n);
    LowSmall(start, n);
    forall m | 0 <= m < start ensures Low(m, n) != start { LowSmall(m, n); }
    while j < |q|
      invariant |q'| == |q| && Low(j, n) == start
      invariant forall m :: 0 <= m < |q| ==> q'[m] == if m < j && Low(m, n) == start then r else q[m]
      decreases |q| - j
    {
      q' := q'[j := r];
      forall m | j < m < j + f ensures Low(m, n) != start {
        if Low(m, n) == start { LowApart(j, m, n); }
      }
      LowAdd(j, n);
      j := j + f;
    }
  }

  // ---------------------------------------------------------------- opening a table

  lemma LinkStays(cs: Codes, nodes: seq<Node>, nd: Node, t: nat, idx: nat, ent: Huft)
    requires cs.Valid() && t < |nodes| && EntryOk(cs, nodes, t, idx, ent)
    ensures EntryOk(cs, nodes + [nd], t, idx, ent)
  {
    if LinkOk(cs, nodes, t, idx, ent) {
      assert LinkOk(cs, nodes + [nd], t, idx, ent);
    }
  }

  /** Nothing behind the current code passes through a table that starts at it. */
  lemma NewTableUntouched(nd: Node, i: nat, k: nat, v: nat)
    requires nd.prefix == i && i < Pow2(nd.w) && nd.w <= k && Through(nd, v)
    ensures Rev(v, k) >= Rev(i, k)
  {
    RevZeros(i, nd.w, k);
    RevBounds(v, k, nd.w);
    RevLow(v, nd.w);
  }

  /** The new table and, below the root, its link in the table before it. */
  function Opened(cs: Codes, wk: Work, j: nat): (wk': Work)
    requires -1 <= wk.h < BMAX - 1 && |wk.u| == BMAX && |wk.x| == BMAX + 1 && wk.w + cs.l >= 0
    requires wk.h >= 0 ==> wk.w >= 0 && wk.u[wk.h] < |wk.tables| && Shr(wk.i, wk.w) < |wk.tables[wk.u[wk.h]]|
  {
    var q := |wk.tables|;
    var tables := wk.tables + [seq(Pow2(j), _ => Unset)];
    var wk' := wk.(tables := tables, u := wk.u[wk.h + 1 := q], h := wk.h + 1, w := wk.w + cs.l);
    if wk.h == -1 then wk'
    else
      var up := wk.u[wk.h];
      wk'.(x := wk.x[wk.h + 1 := wk.i],
           tables := tables[up := tables[up][Shr(wk.i, wk.w) := Link(16 + j, cs.l, q)]])
  }

  /** Where the link for the prefix `i` goes. */
  lemma LinkPlace(nd: Node, i: nat, l: nat)
    requires Through(nd, i) && i < Pow2(nd.w + l) && l <= nd.width
    ensures Shr(i, nd.w) < Pow2(l) <= Pow2(nd.width)
    ensures Path(nd, Shr(i, nd.w)) == i && Slot(nd, i) == Shr(i, nd.w)
  {
    Pow2Mono(l, nd.width);
    Recombine(i, nd.w);
    ShrBound(i, nd.w, l);
    LowSmall(Shr(i, nd.w), nd.width);
  }

  /** The node of a table opened at code `i` of length `k`; the root is looked up with `l` bits. */
  ghost function NewNode(cs: Codes, w: nat, i: nat, k: nat, j: nat): Node {
    Node(w, i, if w == 0 then cs.l else j, k)
  }

  lemma NewNodeOk(cs: Codes, w: nat, i: nat, k: nat, j: nat)
    requires cs.Valid() && HasLength(cs.c, k, i) && k <= cs.g && i < Pow2(w) && Level(w, cs.l)
    requires 1 <= k - w <= j && w + j <= cs.g
    requires j >= cs.l || w + j >= cs.g || Limit(cs.c, w + j) >= Shl(Rev(i, w) + 1, j)
    requires Widths(cs, w, Rev(i, w), k, j)
    ensures NodeOk(cs, NewNode(cs, w, i, k, j))
    ensures NewNode(cs, w, i, k, j).width <= j
  {
    RevZeros(i, w, k);
    if w == 0 && j < cs.l {
      FullBelow(cs.c, cs.g, j);
      ShlPow2(0, j);
    }
  }

  /** What opening a table at the current code of length `k` relies on. */
  ghost predicate CanOpen(cs: Codes, nodes: seq<Node>, wk: Work, k: nat)
    requires cs.Valid()
  {
    && -1 <= wk.h < BMAX - 1 && |wk.u| == BMAX && |wk.x| == BMAX + 1 && |wk.tables| == |nodes|
    && 0 <= wk.w + cs.l < k <= cs.g && wk.i < Pow2(wk.w + cs.l) && Level(wk.w + cs.l, cs.l)
    && HasLength(cs.c, k, wk.i)
    && (wk.h >= 0 ==>
          var up := wk.u[wk.h];
          && wk.w >= 0 && up < |nodes| && nodes[up].w == wk.w && nodes[up].width >= cs.l
          && Shr(wk.i, wk.w) < Pow2(cs.l) <= |wk.tables[up]|
          && Path(nodes[up], Shr(wk.i, wk.w)) == wk.i && Slot(nodes[up], wk.i) == Shr(wk.i, wk.w))
  }

  lemma OpenFacts(cs: Codes, nodes: seq<Node>, wk: Work, k: nat)
    requires cs.Valid() && Stack(cs, nodes, wk) && k > wk.w + cs.l && k <= cs.g && HasLength(cs.c, k, wk.i)
    requires wk.h >= 0 ==>
      wk.i < Pow2(wk.w + cs.l) && NodeOk(cs, nodes[wk.u[wk.h]])
        && |wk.tables[wk.u[wk.h]]| >= Pow2(nodes[wk.u[wk.h]].width)
    ensures CanOpen(cs, nodes, wk, k)
  {
    if wk.h >= 0 {
      var nd := nodes[wk.u[wk.h]];
      if nd.width < cs.l { WideEnough(cs, nd, wk.i, k); }
      LinkPlace(nd, wk.i, cs.l);
    }
  }

  lemma OpenedTablesOk(cs: Codes, nodes: seq<Node>, wk: Work, k: nat, j: nat)
    requires cs.Valid() && CanOpen(cs, nodes, wk, k) && TablesOk(cs, nodes, wk.tables)
    requires var nd := NewNode(cs, wk.w + cs.l, wk.i, k, j); NodeOk(cs, nd) && nd.width <= j
    ensures TablesOk(cs, nodes + [NewNode(cs, wk.w + cs.l, wk.i, k, j)], Opened(cs, wk, j).tables)
  {
    var nd := NewNode(cs, wk.w + cs.l, wk.i, k, j);
    var nodes', tables' := nodes + [nd], Opened(cs, wk, j).tables;
    Pow2Mono(nd.width, j);
    forall t, idx | 0 <= t < |nodes'| && 0 <= idx < |tables'[t]|
      ensures EntryOk(cs, nodes', t, idx, tables'[t][idx])
    {
      if t < |nodes| {
        if wk.h >= 0 && t == wk.u[wk.h] && idx == Shr(wk.i, wk.w) {
          assert LinkOk(cs, nodes', t, idx, tables'[t][idx]);
        } else {
          assert EntryOk(cs, nodes, t, idx, wk.tables[t][idx]);
          LinkStays(cs, nodes, nd, t, idx, wk.tables[t][idx]);
        }
      }
    }
  }

  lemma OpenedLinked(cs: Codes, nodes: seq<Node>, wk: Work, k: nat, j: nat, m: nat)
    requires cs.Valid() && CanOpen(cs, nodes, wk, k) && Stack(cs, nodes, wk) && m <= wk.h
    ensures Linked(cs, nodes + [NewNode(cs, wk.w + cs.l, wk.i, k, j)], Opened(cs, wk, j), m)
  {
    if m < wk.h { assert Linked(cs, nodes, wk, m); }
  }

  lemma OpenedLevels(cs: Codes, nodes: seq<Node>, wk: Work, k: nat, j: nat)
    requires cs.Valid() && CanOpen(cs, nodes, wk, k) && Levels(cs, nodes, wk)
    ensures Levels(cs, nodes + [NewNode(cs, wk.w + cs.l, wk.i, k, j)], Opened(cs, wk, j))
  {
    hide Shr, Shl, Rev, NextCode, HasLength, Slot, Path, Level, Full;
    LowSmall(wk.i, wk.w + cs.l);
    Pow2Mono(wk.w + cs.l, wk.w + 2 * cs.l);
  }

  lemma OpenedStack(cs: Codes, nodes: seq<Node>, wk: Work, k: nat, j: nat)
    requires cs.Valid() && CanOpen(cs, nodes, wk, k) && Stack(cs, nodes, wk)
    ensures Stack(cs, nodes + [NewNode(cs, wk.w + cs.l, wk.i, k, j)], Opened(cs, wk, j))
  {
    var nodes', wk' := nodes + [NewNode(cs, wk.w + cs.l, wk.i, k, j)], Opened(cs, wk, j);
    OpenedLevels(cs, nodes, wk, k, j);
    forall m: nat | m < wk'.h
      ensures Linked(cs, nodes', wk', m)
    {
      OpenedLinked(cs, nodes, wk, k, j, m);
    }
  }

  lemma PushFinished(nodes: seq<Node>, nd: Node, wk: Work, wk': Work, k: nat, code: nat)
    requires -1 <= wk.h < |wk.u| - 1 && Finished(nodes, wk, k, code)
    requires wk'.h == wk.h + 1 && wk'.u == wk.u[wk.h + 1 := |nodes|]
    ensures Finished(nodes + [nd], wk', k, code)
  {
    forall t | 0 <= t <= |nodes|
      ensures t == |nodes| || OnStack(wk.u, wk.h, t) ==> OnStack(wk'.u, wk'.h, t)
    {
      if t == |nodes| {
        assert wk'.u[wk'.h] == t;
      } else if OnStack(wk.u, wk.h, t) {
        var m :| 0 <= m <= wk.h && wk.u[m] == t;
        assert wk'.u[m] == t;
      }
    }
  }

  lemma OpenedCovered(cs: Codes, nodes: seq<Node>, wk: Work, k: nat, code: nat, j: nat)
    requires cs.Valid() && CanOpen(cs, nodes, wk, k) && Rev(wk.i, k) == code
    requires Covered(nodes, wk.tables, k, code)
    ensures Covered(nodes + [NewNode(cs, wk.w + cs.l, wk.i, k, j)], Opened(cs, wk, j).tables, k, code)
  {
    var nd := NewNode(cs, wk.w + cs.l, wk.i, k, j);
    var nodes': seq<Node>, tables': seq<seq<Huft>> := nodes + [nd], Opened(cs, wk, j).tables;
    forall t: nat, v: nat | t < |nodes'| && t < |tables'| && Through(nodes'[t], v) && Rev(v, k) < code
      ensures Slot(nodes'[t], v) < |tables'[t]| && !tables'[t][Slot(nodes'[t], v)].Unset?
    {
      if t == |nodes| {
        NewTableUntouched(nd, wk.i, k, v);
      } else {
        assert !wk.tables[t][Slot(nodes[t], v)].Unset?;
      }
    }
  }

  /** Size, allocate and link a table for the current code. */
  method NewTable(cs: Codes, ghost nodes: seq<Node>, wk: Work, k: nat, a: nat)
    returns (wk': Work, ghost j: nat)
    requires cs.Valid() && CanOpen(cs, nodes, wk, k) && a + 1 == Limit(cs.c, k) - Rev(wk.i, k)
    ensures wk' == Opened(cs, wk, j)
    ensures var nd := NewNode(cs, wk.w + cs.l, wk.i, k, j); NodeOk(cs, nd) && nd.width <= j
  {
    var w: nat := wk.w + cs.l;
    RevZeros(wk.i, w, k);
    var size := SizeTable(cs, Rev(wk.i, w), w, k, a);
    wk', j := Opened(cs, wk, size), size;
    NewNodeOk(cs, w, wk.i, k, j);
  }

  lemma OpenedInv(cs: Codes, nodes: seq<Node>, wk: Work, k: nat, code: nat, j: nat)
    requires cs.Valid() && Inv(cs, nodes, wk, k, code) && CanOpen(cs, nodes, wk, k) && Rev(wk.i, k) == code
    requires var nd := NewNode(cs, wk.w + cs.l, wk.i, k, j); NodeOk(cs, nd) && nd.width <= j
    ensures Inv(cs, nodes + [NewNode(cs, wk.w + cs.l, wk.i, k, j)], Opened(cs, wk, j), k, code)
  {
    hide Shr, Rev, Slot, NodeOk, TablesOk, Stack, Finished, Covered, HasLength, Path, Pow2;
    Pow2Mono(wk.w + cs.l, wk.w + 2 * cs.l);
    OpenedTablesOk(cs, nodes, wk, k, j);
    OpenedStack(cs, nodes, wk, k, j);
    PushFinished(nodes, NewNode(cs, wk.w + cs.l, wk.i, k, j), wk, Opened(cs, wk, j), k, code);
    if cs.WidthOk() {
      OpenedCovered(cs, nodes, wk, k, code, j);
    }
  }

  /** One more table, while the code is longer than the bits decoded so far. */
  method OpenTable(cs: Codes, ghost nodes: seq<Node>, wk: Work, k: nat, a: nat, ghost code: nat)
    returns (wk': Work, ghost nodes': seq<Node>)
    requires cs.Valid() && Inv(cs, nodes, wk, k, code) && HasLength(cs.c, k, wk.i) && k > wk.w + cs.l
    requires Rev(wk.i, k) == code && a + 1 == Limit(cs.c, k) - code
    ensures Inv(cs, nodes', wk', k, code)
    ensures wk'.i == wk.i && wk'.w == wk.w + cs.l && wk'.h >= 0
  {
    hide Shr, Shl, Rev, Slot, Linked, Finished, Covered, EntryOk, NodeOk;
    OpenFacts(cs, nodes, wk, k);
    ghost var j;
    wk', j := NewTable(cs, nodes, wk, k, a);
    nodes' := nodes + [NewNode(cs, wk.w + cs.l, wk.i, k, j)];
    OpenedInv(cs, nodes, wk, k, code, j);
  }

  // ---------------------------------------------------------------- entering a code

  /** The current code of length `k` belongs in the table at the top of the stack. */
  ghost predicate CanEnter(cs: Codes, nodes: seq<Node>, wk: Work, k: nat)
    requires cs.Valid()
  {
    && Levels(cs, nodes, wk) && wk.h >= 0 && wk.w < k <= wk.w + cs.l && k <= cs.g && wk.i < Pow2(k)
    && HasLength(cs.c, k, wk.i) && k <= wk.w + nodes[wk.u[wk.h]].width
  }

  lemma EnterFacts(cs: Codes, nodes: seq<Node>, wk: Work, k: nat)
    requires cs.Valid() && Levels(cs, nodes, wk) && wk.h >= 0 && wk.w < k <= wk.w + cs.l && k <= cs.g
    requires wk.i < Pow2(k) && HasLength(cs.c, k, wk.i) && NodeOk(cs, nodes[wk.u[wk.h]])
    ensures CanEnter(cs, nodes, wk, k)
    ensures Shr(wk.i, wk.w) < Pow2(k - wk.w)
  {
    var nd := nodes[wk.u[wk.h]];
    if nd.w + nd.width < k { WideEnough(cs, nd, wk.i, k); }
    ShrBound(wk.i, wk.w, k - wk.w);
  }

  /** `tables'` is `tables` with entry `r` of code `i` replicated through table `q`. */
  ghost predicate Replicated(tables: seq<seq<Huft>>, tables': seq<seq<Huft>>, q: nat, start: nat, n: nat, r: Huft) {
    && |tables'| == |tables| && q < |tables| && |tables'[q]| == |tables[q]|
    && (forall t :: 0 <= t < |tables| && t != q ==> tables'[t] == tables[t])
    && (forall j :: 0 <= j < |tables[q]| ==> tables'[q][j] == if Low(j, n) == start then r else tables[q][j])
  }

  lemma NewLeafOk(cs: Codes, nd: Node, i: nat, k: nat, idx: nat)
    requires cs.Valid() && HasLength(cs.c, k, i) && k <= cs.g && i < Pow2(k) && Through(nd, i)
    requires nd.w < k <= nd.w + cs.l && k <= nd.w + nd.width
    requires Low(idx, k - nd.w) == Shr(i, nd.w)
    ensures LeafOk(cs, nd, idx, cs.Leaf(k, Rev(i, k) - NextCode(cs.c, k), nd.w))
  {
    ClassPath(nd, idx, i, k);
    assert cs.Leaf(k, Rev(i, k) - NextCode(cs.c, k), nd.w).b == k - nd.w;
  }

  lemma EnteredTablesOk(cs: Codes, nodes: seq<Node>, wk: Work, k: nat, tables': seq<seq<Huft>>)
    requires cs.Valid() && CanEnter(cs, nodes, wk, k) && TablesOk(cs, nodes, wk.tables)
    requires Replicated(wk.tables, tables', wk.u[wk.h], Shr(wk.i, wk.w), k - wk.w,
                        cs.Leaf(k, Rev(wk.i, k) - NextCode(cs.c, k), wk.w))
    ensures TablesOk(cs, nodes, tables')
  {
    hide Low, Shr, Rev, NextCode, NodeOk, LeafOk, LinkOk;
    var q := wk.u[wk.h];
    forall t, idx | 0 <= t < |nodes| && 0 <= idx < |tables'[t]|
      ensures EntryOk(cs, nodes, t, idx, tables'[t][idx])
    {
      if t == q && Low(idx, k - wk.w) == Shr(wk.i, wk.w) {
        NewLeafOk(cs, nodes[q], wk.i, k, idx);
      } else {
        assert EntryOk(cs, nodes, t, idx, wk.tables[t][idx]);
      }
    }
  }

  lemma EnteredStack(cs: Codes, nodes: seq<Node>, wk: Work, tables': seq<seq<Huft>>)
    requires cs.Valid() && Stack(cs, nodes, wk) && wk.h >= 0 && |tables'| == |wk.tables|
    requires forall t :: 0 <= t < |tables'| && t != wk.u[wk.h] ==> tables'[t] == wk.tables[t]
    ensures Stack(cs, nodes, wk.(tables := tables'))
  {
    forall m | 0 <= m < wk.h
      ensures Linked(cs, nodes, wk.(tables := tables'), m)
    {
      assert Linked(cs, nodes, wk, m);
      assert wk.u[m] != wk.u[wk.h];
    }
  }

  /** A stream headed by the current code stays on the stack. */
  lemma OnlyStack(nd: Node, k: nat, v: nat)
    requires nd.w <= k && Through(nd, v)
    ensures Rev(v, k) < Shl(Rev(nd.prefix, nd.w) + 1, k - nd.w)
  {
    RevBounds(v, k, nd.w);
    RevLow(v, nd.w);
  }

  /** Below the top of the stack it selects the link to the next table. */
  lemma SameSlot(nd: Node, v: nat, x: nat, k: nat, i: nat)
    requires nd.w + nd.width <= k && Low(v, k) == Low(i, k) && x == Low(i, nd.w + nd.width)
    ensures Slot(nd, v) == Slot(nd, x)
  {
    hide Low, Shr;
    LowLow(v, nd.w + nd.width, k);
    LowLow(i, nd.w + nd.width, k);
    LowLow(i, nd.w + nd.width, nd.w + nd.width);
    MiddleBits(v, x, nd.w, nd.width);
  }

  lemma EnteredCoversTop(cs: Codes, nodes: seq<Node>, wk: Work, k: nat, tables': seq<seq<Huft>>, r: Huft, v: nat)
    requires cs.Valid() && CanEnter(cs, nodes, wk, k) && Low(v, k) == wk.i && !r.Unset?
    requires Replicated(wk.tables, tables', wk.u[wk.h], Shr(wk.i, wk.w), k - wk.w, r)
    requires |wk.tables[wk.u[wk.h]]| >= Pow2(nodes[wk.u[wk.h]].width)
    ensures var nd := nodes[wk.u[wk.h]]; Slot(nd, v) < |tables'[wk.u[wk.h]]| && !tables'[wk.u[wk.h]][Slot(nd, v)].Unset?
  {
    SlotClass(nodes[wk.u[wk.h]], v, wk.i, k);
  }

  lemma EnteredCoversBelow(cs: Codes, nodes: seq<Node>, wk: Work, k: nat, v: nat, m: nat)
    requires cs.Valid() && Stack(cs, nodes, wk) && m < wk.h && wk.w <= k && Low(v, k) == wk.i && wk.i < Pow2(k)
    requires nodes[wk.u[m]].width <= cs.l
    ensures var nd := nodes[wk.u[m]]; Slot(nd, v) < |wk.tables[wk.u[m]]| && wk.tables[wk.u[m]][Slot(nd, v)].Link?
  {
    hide Low, Shr, Full;
    assert Linked(cs, nodes, wk, m);
    var nd := nodes[wk.u[m]];
    assert nodes[wk.u[m + 1]].w == nd.w + nd.width <= wk.w;
    assert Through(nodes[wk.u[m + 1]], wk.i);
    LowSmall(wk.i, k);
    SameSlot(nd, v, wk.x[m + 1], k, wk.i);
  }

  lemma EnteredCoversNew(cs: Codes, nodes: seq<Node>, wk: Work, k: nat, code: nat, tables': seq<seq<Huft>>, r: Huft,
                         t: nat, v: nat)
    requires cs.Valid() && CanEnter(cs, nodes, wk, k) && Stack(cs, nodes, wk) && Rev(wk.i, k) == code && !r.Unset?
    requires Replicated(wk.tables, tables', wk.u[wk.h], Shr(wk.i, wk.w), k - wk.w, r)
    requires forall t :: 0 <= t < |nodes| ==> |wk.tables[t]| >= Pow2(nodes[t].width)
    requires forall t :: 0 <= t < |nodes| ==> nodes[t].width <= cs.l
    requires Finished(nodes, wk, k, code) && t < |nodes| && Through(nodes[t], v) && Rev(v, k) == code
    ensures Slot(nodes[t], v) < |tables'[t]| && !tables'[t][Slot(nodes[t], v)].Unset?
  {
    hide Low, Shr, Rev, Shl, HasLength, Linked, Full, Slot, Pow2;
    RevEqual(v, wk.i, k);
    LowSmall(wk.i, k);
    if !OnStack(wk.u, wk.h, t) { OnlyStack(nodes[t], k, v); }
    var m :| 0 <= m <= wk.h && wk.u[m] == t;
    if m == wk.h {
      EnteredCoversTop(cs, nodes, wk, k, tables', r, v);
    } else {
      EnteredCoversBelow(cs, nodes, wk, k, v, m);
    }
  }

  lemma EnteredCovered(cs: Codes, nodes: seq<Node>, wk: Work, k: nat, code: nat, tables': seq<seq<Huft>>, r: Huft)
    requires cs.Valid() && CanEnter(cs, nodes, wk, k) && Stack(cs, nodes, wk) && Rev(wk.i, k) == code && !r.Unset?
    requires Replicated(wk.tables, tables', wk.u[wk.h], Shr(wk.i, wk.w), k - wk.w, r)
    requires forall t :: 0 <= t < |nodes| ==> |wk.tables[t]| >= Pow2(nodes[t].width)
    requires forall t :: 0 <= t < |nodes| ==> nodes[t].width <= cs.l
    requires Finished(nodes, wk, k, code) && Covered(nodes, wk.tables, k, code)
    ensures Covered(nodes, tables', k, code + 1)
  {
    hide Low, Shr, Rev, Shl, HasLength, Linked, Full, Slot, Pow2;
    forall t: nat, v: nat | t < |nodes| && t < |tables'| && Through(nodes[t], v) && Rev(v, k) < code + 1
      ensures Slot(nodes[t], v) < |tables'[t]| && !tables'[t][Slot(nodes[t], v)].Unset?
    {
      if Rev(v, k) < code {
        assert !wk.tables[t][Slot(nodes[t], v)].Unset?;
      } else {
        EnteredCoversNew(cs, nodes, wk, k, code, tables', r, t, v);
      }
    }
  }

  /** Under `WidthOk` no table is wider than the lookup width. */
  lemma NoWideTable(cs: Codes, nd: Node)
    requires cs.Valid() && NodeOk(cs, nd) && cs.WidthOk()
    ensures nd.width <= cs.l
  {
    if nd.w > 0 && nd.first >= nd.w + cs.l && nd.w + cs.l < cs.g {
      // The table starts at a pattern of w bits, so at least 2^l patterns of w + l bits are left.
      hide Rev, NextCode, Full, Level, Pow2, Shl;
      var r := Rev(nd.prefix, nd.w);
      CodesStart(cs.c, nd.w + cs.l, nd.first, r, nd.w);
      ShlMono(r + 1, Pow2(nd.w), cs.l);
      ShlAdd(r, 1, cs.l);
      ShlPow2(0, cs.l);
      ShlPow2(nd.w, cs.l);
    }
  }

  /** A code of length `first` that starts a subtree is no lower than the codes of length `k <= first`. */
  lemma {:induction false} CodesStart(c: seq<nat>, k: nat, first: nat, r: nat, w: nat)
    requires |c| == BMAX + 1 && 1 <= w <= k <= first <= BMAX && NextCode(c, first) <= Shl(r, first - w)
    ensures NextCode(c, k) <= Shl(r, k - w)
  {
    if k < first { CodesStart(c, k, first - 1, r, w); }
  }

  /** The state between entering a code and moving to the next. */
  ghost predicate Entered(cs: Codes, nodes: seq<Node>, wk: Work, k: nat, code: nat)
    requires cs.Valid()
  {
    && 1 <= k <= cs.g
    && TablesOk(cs, nodes, wk.tables)
    && Stack(cs, nodes, wk)
    && Finished(nodes, wk, k, code)
    && (cs.WidthOk() ==> Covered(nodes, wk.tables, k, code + 1))
    && wk.h >= 0 && wk.w < k <= wk.w + cs.l && wk.i < Pow2(k) && Rev(wk.i, k) == code
  }

  /** The entry for the next symbol, and the next position in `v`. */
  method NextEntry(cs: Codes, ghost q: nat, w: nat, k: nat, p: nat) returns (r: Huft, p': nat)
    requires cs.Valid() && w < k <= cs.g && k >= 1
    requires p == if Offset(cs.c, k) + q < cs.n then Offset(cs.c, k) + q else cs.n
    ensures r == cs.Leaf(k, q, w) && !r.Unset?
    ensures p' == if Offset(cs.c, k) + q + 1 < cs.n then Offset(cs.c, k) + q + 1 else cs.n
  {
    p' := p;
    if p >= cs.n {
      r := Entry(99, k - w, 0);
    } else {
      if cs.v[p] == UNWRITTEN {
        r := Junk(k - w);
      } else {
        r := EntryFor(cs.vals, cs.v[p], k - w);
      }
      p' := p + 1;
    }
  }

  /** Set up the entry of the current code and fill its table with it. */
  method EnterCode(cs: Codes, ghost nodes: seq<Node>, wk: Work, k: nat, p: nat, ghost code: nat)
    returns (wk': Work, p': nat)
    requires cs.Valid() && Inv(cs, nodes, wk, k, code) && wk.h >= 0 && k <= wk.w + cs.l
    requires HasLength(cs.c, k, wk.i) && Rev(wk.i, k) == code
    requires var t := Offset(cs.c, k) + (code - NextCode(cs.c, k)); p == if t < cs.n then t else cs.n
    ensures Entered(cs, nodes, wk', k, code)
    ensures var t := Offset(cs.c, k) + (code - NextCode(cs.c, k)) + 1; p' == if t < cs.n then t else cs.n
  {
    hide Low, Shr, Rev, NextCode, Offset, Pow2, Slot, Linked, EntryOk, OnStack;
    ghost var q := code - NextCode(cs.c, k);
    var top := wk.u[wk.h];
    EnterFacts(cs, nodes, wk, k);
    var r;
    r, p' := NextEntry(cs, q, wk.w, k, p);
    var table := FillTable(wk.tables[top], Shr(wk.i, wk.w), k - wk.w, r);
    wk' := wk.(tables := wk.tables[top := table]);
    EnteredTablesOk(cs, nodes, wk, k, wk'.tables);
    EnteredStack(cs, nodes, wk, wk'.tables);
    if cs.WidthOk() {
      forall t | 0 <= t < |nodes| ensures nodes[t].width <= cs.l { NoWideTable(cs, nodes[t]); }
      EnteredCovered(cs, nodes, wk, k, code, wk'.tables, r);
    }
  }

  // ---------------------------------------------------------------- moving to the next code

  /** The reversed increment: one is added at the top bit and carries downwards. `n` bits are left below and including
      the tested one, so the mask is two to the `n - 1`, or zero when `n` is. */
  method BackwardsIncrement(i: nat, k: nat) returns (i': nat, ghost n: nat)
    requires k >= 1 && i < Pow2(k)
    ensures Rev(i, k) + 1 < Pow2(k) ==> Rev(i', k) == Rev(i, k) + 1
    ensures n <= k && i' < Pow2(n)
    ensures n > 0 ==> Low(i', n - 1) == Low(i, n - 1)
    ensures n == 0 ==> Rev(i, k) + 1 == Pow2(k)
  {
    hide Low, Rev, Bit;
    i' := i;
    var m := k;
    LowSmall(i, k);
    while m > 0 && Bit(i', m - 1) == 1
      invariant m <= k && i' < Pow2(m) && i' == Low(i, m)
      invariant Shl(Rev(i', m) + 1, k - m) == Rev(i, k) + 1
    {
      DropTopBit(i', m - 1);
      LowLow(i, m - 1, m);
      i' := i' - Pow2(m - 1);
      ShlAdd(Rev(i', m - 1) + 1, Rev(i', m - 1) + 1, k - m);
      m := m - 1;
    }
    n := m;
    if m > 0 {
      RaiseTopBit(i', m - 1);
      LowLow(i, m - 1, m);
      RevZeros(i' + Pow2(m - 1), m, k);
      i' := i' + Pow2(m - 1);
    } else {
      ShlPow2(0, k);
    }
  }

  lemma DropTopBit(i: nat, m: nat)
    requires i < Pow2(m + 1) && Bit(i, m) == 1
    ensures i >= Pow2(m) && i - Pow2(m) == Low(i, m) && Rev(i, m + 1) + 1 == 2 * (Rev(i - Pow2(m), m) + 1)
  {
    LowSmall(i, m + 1);
    LowTop(i, m);
    RevLow(i, m);
  }

  lemma RaiseTopBit(i: nat, m: nat)
    requires i < Pow2(m + 1) && Bit(i, m) == 0
    ensures i < Pow2(m) && Low(i + Pow2(m), m) == Low(i, m) && Rev(i + Pow2(m), m + 1) == Rev(i, m + 1) + 1
  {
    LowSmall(i, m + 1);
    LowTop(i, m);
    LowAdd(i, m);
    RevSetTop(i, m);
  }

  /** A table the next code has left lies behind it. */
  lemma LeftBehind(i: nat, i': nat, w: nat, k: nat)
    requires w <= k && Low(i', w) != Low(i, w)
    requires Rev(i, k) + 1 < Pow2(k) ==> Rev(i', k) == Rev(i, k) + 1
    ensures Shl(Rev(i, w) + 1, k - w) <= Rev(i, k) + 1
  {
    hide Low, Rev, Pow2, Shl;
    if Rev(i, k) + 1 < Pow2(k) {
      RevEqual(i', i, w);
      RevBounds(i, k, w);
      RevBounds(i', k, w);
      if Rev(i', w) < Rev(i, w) {
        ShlMono(Rev(i', w) + 1, Rev(i, w), k - w);
      } else {
        ShlMono(Rev(i, w) + 1, Rev(i', w), k - w);
      }
    } else {
      ShlMono(Rev(i, w) + 1, Pow2(w), k - w);
      ShlPow2(w, k - w);
    }
  }

  function Popped(cs: Codes, wk: Work): Work {
    wk.(h := wk.h - 1, w := wk.w - cs.l)
  }

  lemma PoppedStack(cs: Codes, nodes: seq<Node>, wk: Work)
    requires cs.Valid() && Stack(cs, nodes, wk) && wk.h > 0
    ensures Stack(cs, nodes, Popped(cs, wk))
  {
    hide Slot, Through, Full;
    assert Linked(cs, nodes, wk, wk.h - 1);
    forall m | 0 <= m < wk.h - 1
      ensures Linked(cs, nodes, Popped(cs, wk), m)
    {
      assert Linked(cs, nodes, wk, m);
    }
  }

  lemma PoppedFinished(cs: Codes, nodes: seq<Node>, wk: Work, k: nat, code: nat)
    requires 0 < wk.h < |wk.u| && wk.u[wk.h] < |nodes| && Finished(nodes, wk, k, code)
    requires var nd := nodes[wk.u[wk.h]]; nd.w <= k && Shl(Rev(nd.prefix, nd.w) + 1, k - nd.w) <= code
    ensures Finished(nodes, Popped(cs, wk), k, code)
  {
    forall t | 0 <= t < |nodes| && OnStack(wk.u, wk.h, t) && t != wk.u[wk.h]
      ensures OnStack(wk.u, wk.h - 1, t)
    {
      var m :| 0 <= m <= wk.h && wk.u[m] == t;
    }
  }

  /** The next code passes through the tables that stay on the stack. */
  lemma SwitchCode(cs: Codes, nodes: seq<Node>, wk: Work, i': nat)
    requires cs.Valid() && Stack(cs, nodes, wk) && wk.h >= 0 && Low(i', wk.w) == wk.x[wk.h]
    ensures Stack(cs, nodes, wk.(i := i'))
  {
    hide Slot, Full, Low;
    forall m | 0 <= m <= wk.h
      ensures Through(nodes[wk.u[m]], i')
    {
      var w := nodes[wk.u[m]].w;
      assert w <= wk.w && Low(wk.i, w) == wk.x[m] && Low(wk.i, wk.w) == wk.x[wk.h];
      LowLow(i', w, wk.w);
      LowLow(wk.i, w, wk.w);
    }
    forall m | 0 <= m < wk.h
      ensures Linked(cs, nodes, wk.(i := i'), m)
    {
      assert Linked(cs, nodes, wk, m);
    }
  }

  /** After the increment from `wk.i` to `i`: back up through the tables to one that was opened for the low bits of the
      new code. */
  method BackUp(cs: Codes, ghost nodes: seq<Node>, wk: Work, i: nat, k: nat, ghost code: nat, ghost n: nat)
    returns (wk': Work)
    requires cs.Valid() && Stack(cs, nodes, wk) && Finished(nodes, wk, k, code + 1) && wk.h >= 0
    requires wk.w < k <= wk.w + cs.l && Rev(wk.i, k) == code
    requires code + 1 < Pow2(k) ==> Rev(i, k) == code + 1
    requires n <= k && i < Pow2(n) && (n > 0 ==> Low(i, n - 1) == Low(wk.i, n - 1))
    ensures Stack(cs, nodes, wk') && Finished(nodes, wk', k, code + 1)
    ensures wk'.tables == wk.tables && wk'.i == i && wk'.h >= 0 && wk'.w <= wk.w && i < Pow2(wk'.w + cs.l)
  {
    hide Low, Rev, Pow2, Stack, Finished, Full;
    wk' := wk;
    StackTop(cs, nodes, wk);
    Pow2Mono(n, wk.w + cs.l);
    while Low(i, wk'.w) != wk'.x[wk'.h]
      invariant 0 <= wk'.h < |wk'.x| && wk'.h < |wk'.u| && 0 <= wk'.w <= wk.w
      invariant Stack(cs, nodes, wk') && Finished(nodes, wk', k, code + 1)
      invariant wk'.tables == wk.tables && wk'.i == wk.i
      invariant i < Pow2(wk'.w + cs.l)
      decreases wk'.h
    {
      PopStep(cs, nodes, wk', i, k, code, n);
      wk' := Popped(cs, wk');
    }
    SwitchCode(cs, nodes, wk', i);
    SameFinished(nodes, wk', wk'.(i := i), k, code + 1);
    wk' := wk'.(i := i);
  }

  lemma StackTop(cs: Codes, nodes: seq<Node>, wk: Work)
    requires cs.Valid() && Stack(cs, nodes, wk) && wk.h >= 0
    ensures 0 <= wk.h < |wk.x| && wk.h < |wk.u| && wk.w >= 0
  {
  }

  lemma PopStep(cs: Codes, nodes: seq<Node>, wk: Work, i: nat, k: nat, code: nat, n: nat)
    requires cs.Valid() && Stack(cs, nodes, wk) && Finished(nodes, wk, k, code + 1)
    requires 0 <= wk.h < |wk.x| && 0 <= wk.w <= k && Low(i, wk.w) != wk.x[wk.h] && Rev(wk.i, k) == code
    requires code + 1 < Pow2(k) ==> Rev(i, k) == code + 1
    requires n <= k && i < Pow2(n) && (n > 0 ==> Low(i, n - 1) == Low(wk.i, n - 1))
    ensures wk.h > 0 && wk.w >= cs.l && i < Pow2(wk.w)
    ensures Stack(cs, nodes, Popped(cs, wk)) && Finished(nodes, Popped(cs, wk), k, code + 1)
  {
    hide Low, Rev, Pow2, Shl, Slot, Linked, Finished, Full;
    RootStops(i, wk.w, wk.x[wk.h]);
    PassedBy(wk.i, i, wk.w, k, n);
    RevLow(wk.i, wk.w);
    PoppedStack(cs, nodes, wk);
    PoppedFinished(cs, nodes, wk, k, code + 1);
  }

  lemma SameFinished(nodes: seq<Node>, wk: Work, wk': Work, k: nat, code: nat)
    requires wk.h < |wk.u| && wk'.h == wk.h && wk'.u == wk.u && Finished(nodes, wk, k, code)
    ensures Finished(nodes, wk', k, code)
  {
  }

  lemma RootStops(i: nat, w: nat, x: nat)
    requires Low(i, w) != x
    ensures w == 0 ==> x != 0
  {
  }

  /** The increment carried below the table's last prefix bit. */
  lemma PassedBy(i: nat, i': nat, w: nat, k: nat, n: nat)
    requires w <= k && n <= k && i' < Pow2(n) && (n > 0 ==> Low(i', n - 1) == Low(i, n - 1))
    requires Low(i', w) != Low(i, w)
    requires Rev(i, k) + 1 < Pow2(k) ==> Rev(i', k) == Rev(i, k) + 1
    ensures i' < Pow2(w)
    ensures Shl(Rev(i, w) + 1, k - w) <= Rev(i, k) + 1
  {
    hide Low, Rev, Shl;
    if n > w {
      LowLow(i', w, n - 1);
      LowLow(i, w, n - 1);
    }
    Pow2Mono(n, w);
    LeftBehind(i, i', w, k);
  }

  // ---------------------------------------------------------------- the filling loop

  /** Enter the current code and move to the next one. */
  method OneCode(cs: Codes, ghost nodes: seq<Node>, wk: Work, k: nat, a: nat, p: nat, ghost code: nat)
    returns (wk': Work, p': nat, ghost nodes': seq<Node>)
    requires cs.Valid() && Inv(cs, nodes, wk, k, code)
    requires NextCode(cs.c, k) <= code < Limit(cs.c, k) <= Pow2(k) && a + 1 == Limit(cs.c, k) - code
    requires var t := Offset(cs.c, k) + (code - NextCode(cs.c, k)); p == if t < cs.n then t else cs.n
    ensures Inv(cs, nodes', wk', k, code + 1) && nodes' != [] && wk'.h >= 0
    ensures var t := Offset(cs.c, k) + (code - NextCode(cs.c, k)) + 1; p' == if t < cs.n then t else cs.n
  {
    hide Low, Rev, Pow2, Offset, NextCode, TablesOk, Stack, Finished, Covered;
    wk', nodes' := wk, nodes;
    while k > wk'.w + cs.l
      invariant Inv(cs, nodes', wk', k, code) && wk'.i == wk.i
      decreases k - wk'.w
    {
      wk', nodes' := OpenTable(cs, nodes', wk', k, a, code);
    }
    HasTable(cs, nodes', wk', k, code);
    wk', p' := EnterCode(cs, nodes', wk', k, p, code);
    ghost var n;
    var i;
    i, n := BackwardsIncrement(wk'.i, k);
    StackTop(cs, nodes', wk');
    NextFinished(nodes', wk', k, code);
    wk' := BackUp(cs, nodes', wk', i, k, code, n);
    Pow2Mono(n, k);
  }

  lemma HasTable(cs: Codes, nodes: seq<Node>, wk: Work, k: nat, code: nat)
    requires cs.Valid() && Inv(cs, nodes, wk, k, code) && k <= wk.w + cs.l
    ensures wk.h >= 0 && nodes != []
  {
  }

  lemma NextFinished(nodes: seq<Node>, wk: Work, k: nat, code: nat)
    requires wk.h < |wk.u| && Finished(nodes, wk, k, code)
    ensures Finished(nodes, wk, k, code + 1)
  {
  }

  lemma LongerCovered(nodes: seq<Node>, tables: seq<seq<Huft>>, k: nat, code: nat)
    requires Covered(nodes, tables, k, code)
    ensures Covered(nodes, tables, k + 1, 2 * code)
  {
    hide Slot, Through, Bit;
    forall t: nat, v: nat | t < |nodes| && t < |tables| && Through(nodes[t], v) && Rev(v, k + 1) < 2 * code
      ensures Slot(nodes[t], v) < |tables[t]| && !tables[t][Slot(nodes[t], v)].Unset?
    {
      assert Rev(v, k) < code;
    }
  }

  lemma LongerFinished(nodes: seq<Node>, wk: Work, k: nat, code: nat)
    requires wk.h < |wk.u| && Finished(nodes, wk, k, code)
    ensures Finished(nodes, wk, k + 1, 2 * code)
  {
    hide Rev, OnStack;
  }

  /** A code of length `k` reads as a code of length `k + 1` with a zero bit more. */
  lemma NextLength(cs: Codes, nodes: seq<Node>, wk: Work, k: nat, code: nat)
    requires cs.Valid() && Inv(cs, nodes, wk, k, code) && wk.h >= 0 && code < Pow2(k) && k < cs.g
    ensures Inv(cs, nodes, wk, k + 1, 2 * code)
  {
    hide TablesOk, Stack, Covered, Finished, Rev;
    RevZeros(wk.i, k, k + 1);
    assert Shl(Rev(wk.i, k), 1) == 2 * Rev(wk.i, k);
    StackTop(cs, nodes, wk);
    LongerFinished(nodes, wk, k, code);
    if cs.WidthOk() { LongerCovered(nodes, wk.tables, k, code); }
  }

  lemma {:induction false} NothingShorter(c: seq<nat>, k: nat)
    requires |c| == BMAX + 1 && 1 <= k <= BMAX && forall j :: 1 <= j < k ==> c[j] == 0
    ensures NextCode(c, k) == 0 && Offset(c, k) == 0
  {
    if k > 1 { NothingShorter(c, k - 1); }
  }

  lemma LimitFits(c: seq<nat>, g: nat, k: nat)
    requires Full(c, g) && 1 <= k <= g
    ensures Limit(c, k) <= Pow2(k) && (k < g ==> Limit(c, k) < Pow2(k))
  {
    if k < g { FullBelow(c, g, k); }
  }

  /** The tables are well formed and, under `WidthOk`, every stream finds its way through them. */
  ghost predicate Built(cs: Codes, nodes: seq<Node>, tables: seq<seq<Huft>>)
    requires cs.Valid()
  {
    && TablesOk(cs, nodes, tables) && nodes != [] && nodes[0].w == 0
    && (cs.WidthOk() ==> Covered(nodes, tables, cs.g, Pow2(cs.g)))
  }

  /** Generate the codes in order of length and enter each in the tables. */
  method FillTables(cs: Codes, kmin: nat) returns (tables: seq<seq<Huft>>, ghost nodes: seq<Node>)
    requires cs.Valid() && 1 <= kmin <= cs.g && cs.c[kmin] > 0 && forall j :: 1 <= j < kmin ==> cs.c[j] == 0
    ensures Built(cs, nodes, tables)
  {
    hide Rev, Inv, Built, Pow2, Level;
    var wk := Work([], seq(BMAX, _ => 0), seq(BMAX + 1, _ => 0), -1, -(cs.l as int), 0);
    nodes := [];
    var k, p := kmin, 0;
    NothingShorter(cs.c, kmin);
    StartInv(cs, wk, kmin);
    while k <= cs.g
      invariant kmin <= k <= cs.g + 1
      invariant k <= cs.g ==>
                  && Inv(cs, nodes, wk, k, NextCode(cs.c, k))
                  && p == if Offset(cs.c, k) < cs.n then Offset(cs.c, k) else cs.n
      invariant k > kmin ==> wk.h >= 0
      invariant k > cs.g ==> Built(cs, nodes, wk.tables)
    {
      var a := cs.c[k];
      LimitFits(cs.c, cs.g, k);
      while a > 0
        invariant a <= cs.c[k] && (a < cs.c[k] || k > kmin ==> wk.h >= 0)
        invariant Inv(cs, nodes, wk, k, Limit(cs.c, k) - a)
        invariant var t := Offset(cs.c, k) + (cs.c[k] - a); p == if t < cs.n then t else cs.n
      {
        a := a - 1;
        wk, p, nodes := OneCode(cs, nodes, wk, k, a, p, Limit(cs.c, k) - a - 1);
      }
      if k < cs.g {
        NextLength(cs, nodes, wk, k, Limit(cs.c, k));
      } else {
        LastInv(cs, nodes, wk);
      }
      k := k + 1;
    }
    tables := wk.tables;
  }

  lemma LastInv(cs: Codes, nodes: seq<Node>, wk: Work)
    requires cs.Valid() && Inv(cs, nodes, wk, cs.g, Pow2(cs.g)) && wk.h >= 0
    ensures Built(cs, nodes, wk.tables)
  {
    hide TablesOk, Finished, Covered, Linked;
  }

  lemma StartInv(cs: Codes, wk: Work, k: nat)
    requires cs.Valid() && 1 <= k <= cs.g
    requires wk == Work([], seq(BMAX, _ => 0), seq(BMAX + 1, _ => 0), -1, -(cs.l as int), 0)
    ensures Inv(cs, [], wk, k, 0)
  {
    RevZeros(0, 0, k);
    ShlZero(k);
  }

  lemma {:induction false} ShlZero(n: nat)
    ensures Shl(0, n) == 0
  {
    if n > 0 { ShlZero(n - 1); }
  }
}
