/** Walking the lookup tables of zBoot/inflate.c, and when the walk is canonical decoding. */
module HuftLookup {
  import opened Bits
  import opened Canonical
  import opened HuftTables

  /** What decoding one symbol yields: operation or extra bits, value and bits consumed; an invalid
      code; or a read of memory that was never written. */
  datatype Outcome = Symbol(e: nat, n: nat, used: nat) | BadCode | Wild

  /** Look up `width` bits of `v` in table `t`, following links, `used` bits having been consumed. */
  function Walk(tables: seq<seq<Huft>>, t: nat, width: nat, v: nat, used: nat): Outcome
    decreases |tables| - t
  {
    if t >= |tables| || Low(v, width) >= |tables[t]| then Wild
    else
      match tables[t][Low(v, width)]
      case Unset => Wild
      case Junk(_) => Wild
      case Entry(e, b, n) => if e == 99 then BadCode else Symbol(e, n, used + b)
      case Link(e, b, t') => if t < t' && e >= 16 then Walk(tables, t', e - 16, Shr(v, b), used + b) else Wild
  }

  function FromEntry(ent: Huft, used: nat): Outcome {
    match ent
    case Entry(e, _, n) => if e == 99 then BadCode else Symbol(e, n, used)
    case _ => Wild
  }

  /** The outcome for the code of length `k` at the head of the stream. */
  function CodeOutcome(cs: Codes, k: nat, v: nat): Outcome
    requires cs.Valid() && HasLength(cs.c, k, v) && k <= cs.g
  {
    FromEntry(cs.Leaf(k, Rev(v, k) - NextCode(cs.c, k), 0), k)
  }

  lemma LeafOutcome(cs: Codes, nd: Node, v: nat, ent: Huft)
    requires cs.Valid() && Through(nd, v) && LeafOk(cs, nd, Slot(nd, v), ent)
    ensures var k := nd.w + ent.b; HasLength(cs.c, k, v) && k <= cs.g && FromEntry(ent, k) == CodeOutcome(cs, k, v)
  {
    hide Path, Rev, Slot, NextCode;
    SlotRev(nd, v, nd.w + ent.b);
  }

  lemma LinkFollows(cs: Codes, nodes: seq<Node>, t: nat, v: nat, ent: Huft)
    requires t < |nodes| && Through(nodes[t], v) && LinkOk(cs, nodes, t, Slot(nodes[t], v), ent)
    requires nodes[t].width <= cs.l
    ensures Through(nodes[ent.t], v)
  {
    SlotPath(nodes[t], v);
  }

  /** From any table the walk ends at the entry of the code at the head of the stream. */
  lemma {:induction false} WalkFrom(cs: Codes, nodes: seq<Node>, tables: seq<seq<Huft>>, t: nat, v: nat)
    returns (k: nat)
    requires cs.Valid() && Built(cs, nodes, tables) && cs.WidthOk() && t < |nodes| && Through(nodes[t], v)
    ensures HasLength(cs.c, k, v) && k <= cs.g
    ensures Walk(tables, t, nodes[t].width, Shr(v, nodes[t].w), nodes[t].w) == CodeOutcome(cs, k, v)
    decreases |nodes| - t
  {
    hide Low, Shr, Path, Rev, NodeOk, LeafOk, Full, Pow2, CodeOutcome;
    var nd := nodes[t];
    var ent := EntryAt(cs, nodes, tables, t, v);
    NoWideTable(cs, nd);
    if LinkOk(cs, nodes, t, Slot(nd, v), ent) {
      LinkFollows(cs, nodes, t, v, ent);
      ShrShr(v, nd.w, cs.l);
      k := WalkFrom(cs, nodes, tables, ent.t, v);
    } else {
      LeafIsEntry(cs, nd, Slot(nd, v), ent);
      k := nd.w + ent.b;
      LeafOutcome(cs, nd, v, ent);
    }
  }

  lemma LeafIsEntry(cs: Codes, nd: Node, idx: nat, ent: Huft)
    requires cs.Valid() && LeafOk(cs, nd, idx, ent)
    ensures ent.Entry? || ent.Junk?
  {
  }

  /** Every stream finds an entry in every table it passes through. */
  lemma EntryAt(cs: Codes, nodes: seq<Node>, tables: seq<seq<Huft>>, t: nat, v: nat) returns (ent: Huft)
    requires cs.Valid() && Built(cs, nodes, tables) && cs.WidthOk() && t < |nodes| && Through(nodes[t], v)
    ensures |tables| == |nodes| && Slot(nodes[t], v) < |tables[t]| && ent == tables[t][Slot(nodes[t], v)]
    ensures NodeOk(cs, nodes[t])
    ensures LeafOk(cs, nodes[t], Slot(nodes[t], v), ent) || LinkOk(cs, nodes, t, Slot(nodes[t], v), ent)
  {
    hide Slot, Through, Rev, LeafOk, LinkOk, NodeOk;
    assert Rev(v, cs.g) < Pow2(cs.g) by { RevFits(v, cs.g); }
    ent := tables[t][Slot(nodes[t], v)];
    assert EntryOk(cs, nodes, t, Slot(nodes[t], v), ent);
  }

  /** Under `WidthOk` the walk decodes every stream to the code at its head. */
  lemma WalkDecodes(cs: Codes, nodes: seq<Node>, tables: seq<seq<Huft>>, v: nat) returns (k: nat)
    requires cs.Valid() && Built(cs, nodes, tables) && cs.WidthOk()
    ensures HasLength(cs.c, k, v) && k <= cs.g && Walk(tables, 0, cs.l, v, 0) == CodeOutcome(cs, k, v)
  {
    hide CodeOutcome, Rev, Walk;
    assert NodeOk(cs, nodes[0]) && Through(nodes[0], v);
    k := WalkFrom(cs, nodes, tables, 0, v);
  }

  // ---------------------------------------------------------------- the converse

  /** The stream of `g` one bits. */
  function Ones(g: nat): nat {
    Pow2(g) - 1
  }

  lemma {:induction false} OnesBits(g: nat, n: nat)
    requires n <= g
    ensures Low(Ones(g), n) == Ones(n) && Shr(Ones(g), n) == Ones(g - n)
  {
    if n != 0 {
      assert Ones(g) / 2 == Ones(g - 1) && Ones(g) % 2 == 1;
      OnesBits(g - 1, n - 1);
    }
  }

  lemma {:induction false} OnesRev(g: nat, n: nat)
    requires n <= g
    ensures Rev(Ones(g), n) == Ones(n)
  {
    if n != 0 {
      OnesRev(g, n - 1);
      OnesBits(g, n - 1);
      assert Ones(g - (n - 1)) % 2 == 1;
    }
  }

  /** Levels are a lookup width apart. */
  lemma {:induction false} LevelsApart(w: nat, w0: nat, l: nat)
    requires l > 0 && Level(w, l) && Level(w0, l) && w < w0
    ensures w + l <= w0
    decreases w0
  {
    if w > 0 { LevelsApart(w - l, w0 - l, l); }
  }

  /** The bit position at which the size search oversteps the lookup width. */
  ghost predicate Oversteps(cs: Codes, w: nat)
    requires cs.Valid()
  {
    cs.l <= w && w + cs.l < cs.g && Level(w, cs.l) && Pow2(w + cs.l) - NextCode(cs.c, w + cs.l) >= Pow2(cs.l)
  }

  /** The table reached there by one bits is wider than the lookup width. */
  lemma WideTable(cs: Codes, nd: Node)
    requires cs.Valid() && NodeOk(cs, nd) && Oversteps(cs, nd.w) && nd.prefix == Ones(nd.w)
    ensures nd.width > cs.l
  {
    hide Level, NextCode, Rev, Shl;
    var r := Ones(nd.w);
    OnesRev(nd.w, nd.w);
    ShlAdd(r, 1, cs.l);
    ShlPow2(0, cs.l);
    ShlPow2(nd.w, cs.l);
    if nd.first < nd.w + cs.l {
      EarlierCodes(cs.c, nd.first, nd.w + cs.l, r, nd.w);
    } else if nd.first == nd.w + cs.l {
      FullBelow(cs.c, cs.g, nd.first);
    }
  }

  /** Past a subtree's first code, longer codes start above that subtree's first pattern. */
  lemma EarlierCodes(c: seq<nat>, first: nat, k: nat, r: nat, w: nat)
    requires |c| == BMAX + 1 && 1 <= first < k <= BMAX && w <= first && Shl(r, first - w) < Limit(c, first)
    ensures Shl(r, k - w) < NextCode(c, k)
  {
    hide Limit, NextCode;
    CodesBelow(c, first, k);
    ShlMono(Shl(r, first - w) + 1, Limit(c, first), k - first);
    ShlAdd(Shl(r, first - w), 1, k - first);
    ShlPow2(0, k - first);
    ShlShl(r, first - w, k - first);
  }

  /** No code of at most `k < g` bits is all ones, so an entry on the all-ones path is no code. */
  lemma NotLeaf(cs: Codes, nd: Node, ent: Huft)
    requires cs.Valid() && NodeOk(cs, nd) && nd.prefix == Ones(nd.w) && nd.w + cs.l < cs.g
    requires Through(nd, Ones(cs.g))
    ensures !LeafOk(cs, nd, Slot(nd, Ones(cs.g)), ent)
  {
    hide Path, Slot, Rev, NodeOk;
    if LeafOk(cs, nd, Slot(nd, Ones(cs.g)), ent) {
      var k := nd.w + ent.b;
      SlotRev(nd, Ones(cs.g), k);
      OnesRev(cs.g, k);
      FullBelow(cs.c, cs.g, k);
    }
  }

  lemma OnesSlot(nd: Node, g: nat)
    requires nd.w + nd.width <= g
    ensures Slot(nd, Ones(g)) == Ones(nd.width) && Low(Ones(g), nd.w) == Ones(nd.w)
  {
    OnesBits(g, nd.w);
    OnesBits(g - nd.w, nd.width);
  }

  /** The walk on one bits runs into memory that was never written. */
  lemma {:induction false} WalkGoesWild(cs: Codes, nodes: seq<Node>, tables: seq<seq<Huft>>, t: nat, w0: nat)
    requires cs.Valid() && TablesOk(cs, nodes, tables) && t < |nodes| && nodes[t].prefix == Ones(nodes[t].w)
    requires Oversteps(cs, w0) && nodes[t].w <= w0
    ensures Walk(tables, t, nodes[t].width, Shr(Ones(cs.g), nodes[t].w), nodes[t].w) == Wild
    decreases |nodes| - t
  {
    hide Low, Shr, Path, Rev, LeafOk, Full, NodeOk, NextCode;
    var nd := nodes[t];
    var v := Ones(cs.g);
    assert NodeOk(cs, nd);
    NodeBits(cs, nd);
    OnesSlot(nd, cs.g);
    NotLeaf(cs, nd, tables[t][Slot(nd, v)]);
    assert EntryOk(cs, nodes, t, Slot(nd, v), tables[t][Slot(nd, v)]);
    var ent := tables[t][Slot(nd, v)];
    if !ent.Unset? {
      if nd.w == w0 { WideTable(cs, nd); }
      if nd.width > cs.l { Pow2Mono(cs.l + 1, nd.width); }
      LevelsApart(nd.w, w0, cs.l);
      LinkFollows(cs, nodes, t, v, ent);
      OnesBits(cs.g, nd.w + cs.l);
      ShrShr(v, nd.w, cs.l);
      WalkGoesWild(cs, nodes, tables, ent.t, w0);
    }
  }

  lemma NodeBits(cs: Codes, nd: Node)
    requires cs.Valid() && NodeOk(cs, nd)
    ensures nd.w + nd.width <= cs.g && nd.width >= 1 && Level(nd.w, cs.l)
  {
  }

  // ---------------------------------------------------------------- widths a bit buffer can serve

  /** An entry reached by looking up `width` bits consumes no more than those. */
  predicate BitsFit(ent: Huft, width: nat) {
    ent.Unset? || 1 <= ent.b <= width
  }

  /** Looking up `width` bits in table `t` stays in the table and consumes no more than that. */
  ghost predicate Serves(tables: seq<seq<Huft>>, t: nat, width: nat) {
    t < |tables| && width <= BMAX && forall i :: 0 <= i < Pow2(width) ==>
      i < |tables[t]| && BitsFit(tables[t][i], width)
  }

  /** Every lookup is served: from the root with `m` bits, and through every link. */
  ghost predicate Sane(tables: seq<seq<Huft>>, m: nat) {
    && m <= BMAX && (|tables| > 0 ==> Serves(tables, 0, m))
    && (forall t, i :: 0 <= t < |tables| && 0 <= i < |tables[t]| && tables[t][i].Link? ==>
        LinkSane(tables, t, tables[t][i]))
  }

  ghost predicate LinkSane(tables: seq<seq<Huft>>, t: nat, ent: Huft)
    requires ent.Link?
  {
    t < ent.t && 16 <= ent.e && Serves(tables, ent.t, ent.e - 16)
  }

  lemma TableFits(cs: Codes, nodes: seq<Node>, tables: seq<seq<Huft>>, t: nat)
    requires cs.Valid() && TablesOk(cs, nodes, tables) && t < |nodes|
    ensures Serves(tables, t, nodes[t].width)
  {
    hide NodeOk, Path, Rev, Pow2, Limit;
    assert NodeOk(cs, nodes[t]);
    NodeBits(cs, nodes[t]);
    forall i | 0 <= i < Pow2(nodes[t].width)
      ensures i < |tables[t]| && BitsFit(tables[t][i], nodes[t].width)
    {
      assert EntryOk(cs, nodes, t, i, tables[t][i]);
    }
  }

  lemma BuiltIsSane(cs: Codes, nodes: seq<Node>, tables: seq<seq<Huft>>)
    requires cs.Valid() && Built(cs, nodes, tables)
    ensures Sane(tables, cs.l)
  {
    hide NodeOk, Serves, Path, LeafOk, Covered, Pow2, Limit;
    TableFits(cs, nodes, tables, 0);
    assert NodeOk(cs, nodes[0]);
    RootWidth(cs, nodes[0]);
    forall t, i | 0 <= t < |tables| && 0 <= i < |tables[t]| && tables[t][i].Link?
      ensures LinkSane(tables, t, tables[t][i])
    {
      assert EntryOk(cs, nodes, t, i, tables[t][i]);
      LinkNotLeaf(cs, nodes[t], i, tables[t][i]);
      TableFits(cs, nodes, tables, tables[t][i].t);
    }
  }

  lemma RootWidth(cs: Codes, nd: Node)
    requires cs.Valid() && NodeOk(cs, nd) && nd.w == 0
    ensures nd.width == cs.l
  {
  }

  lemma LinkNotLeaf(cs: Codes, nd: Node, idx: nat, ent: Huft)
    requires cs.Valid() && ent.Link?
    ensures !LeafOk(cs, nd, idx, ent)
  {
  }

  /** When the root looks up the longest code at once there is nothing to link to. */
  lemma OneLevel(cs: Codes, nodes: seq<Node>, tables: seq<seq<Huft>>)
    requires cs.Valid() && Built(cs, nodes, tables) && cs.l == cs.g
    ensures NoLinks(tables)
  {
    hide NodeOk, Path, LeafOk, Covered, Pow2, Limit, Rev;
    forall t, i | 0 <= t < |tables| && 0 <= i < |tables[t]|
      ensures !tables[t][i].Link?
    {
      assert EntryOk(cs, nodes, t, i, tables[t][i]);
      if tables[t][i].Link? {
        LinkNotLeaf(cs, nodes[t], i, tables[t][i]);
        NodeBits(cs, nodes[tables[t][i].t]);
      }
    }
  }

  predicate NoLinks(tables: seq<seq<Huft>>) {
    forall t, i :: 0 <= t < |tables| && 0 <= i < |tables[t]| ==> !tables[t][i].Link?
  }
}
