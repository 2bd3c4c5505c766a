/** `huft_build` of zBoot/inflate.c: from code lengths to lookup tables. */
module HuftBuild {
  import opened Bits
  import opened Canonical
  import opened HuftTables
  import opened HuftLookup

  // ---------------------------------------------------------------- counting and sorting

  method CountLengths(b: seq<nat>, c: array<nat>)
    requires c.Length == BMAX + 1 && forall i :: 0 <= i < |b| ==> b[i] <= BMAX
    modifies c
    ensures c[..] == BlCount(b)
  {
    for k := 0 to BMAX + 1
      invariant forall j :: 0 <= j < k ==> c[j] == 0
    {
      c[k] := 0;
    }
    for i := 0 to |b|
      invariant forall k :: 0 <= k <= BMAX ==> c[k] == Count(b[..i], k)
    {
      assert b[..i + 1][..i] == b[..i];
      c[b[i]] := c[b[i]] + 1;
    }
    assert b[..|b|] == b;
  }

  /** The shortest and the longest length in use. */
  method Extremes(c: array<nat>) returns (lo: nat, hi: nat)
    requires c.Length == BMAX + 1 && exists k :: 1 <= k <= BMAX && c[k] != 0
    ensures 1 <= lo <= hi <= BMAX && c[lo] != 0 && c[hi] != 0
    ensures forall k :: 1 <= k <= BMAX && (k < lo || k > hi) ==> c[k] == 0
  {
    lo := 1;
    while lo <= BMAX && c[lo] == 0
      invariant 1 <= lo && forall k :: 1 <= k < lo && k <= BMAX ==> c[k] == 0
    {
      lo := lo + 1;
    }
    hi := BMAX;
    while hi > 0 && c[hi] == 0
      invariant lo <= hi <= BMAX && forall k :: hi < k <= BMAX ==> c[k] == 0
    {
      hi := hi - 1;
    }
  }

  /** The set promises more codes than the patterns of some length can carry. */
  ghost predicate Oversubscribed(c: seq<nat>)
    requires |c| == BMAX + 1
  {
    Limit(c, BMAX) > Pow2(BMAX)
  }

  lemma {:induction false} OverStays(c: seq<nat>, k: nat, k': nat)
    requires |c| == BMAX + 1 && 1 <= k <= k' <= BMAX && Limit(c, k) > Pow2(k)
    ensures Limit(c, k') > Pow2(k')
  {
    if k < k' {
      OverStays(c, k, k' - 1);
    }
  }

  /** Past the longest code the used patterns only scale. */
  lemma {:induction false} LimitScales(c: seq<nat>, g: nat, k: nat)
    requires |c| == BMAX + 1 && 1 <= g <= k <= BMAX && forall j :: g < j <= BMAX ==> c[j] == 0
    ensures Limit(c, k) == Shl(Limit(c, g), k - g)
  {
    if g < k { LimitScales(c, g, k - 1); }
  }

  /** Patterns of the longest length left unused, or less than zero. */
  method Leftover(c: array<nat>, lo: nat, hi: nat) returns (y: int)
    requires c.Length == BMAX + 1 && 1 <= lo <= hi <= BMAX
    requires forall k :: 1 <= k <= BMAX && (k < lo || k > hi) ==> c[k] == 0
    ensures y < 0 <==> Oversubscribed(c[..])
    ensures y >= 0 ==> y == Pow2(hi) - Limit(c[..], hi)
  {
    ghost var cs := c[..];
    NothingShorter(cs, lo);
    LimitScales(cs, hi, BMAX);
    ShlPow2(hi, BMAX - hi);
    var j := lo;
    y := Pow2(lo);
    while j < hi
      invariant lo <= j <= hi && y == Pow2(j) - NextCode(cs, j)
    {
      y := y - c[j];
      if y < 0 {
        OverStays(cs, j, BMAX);
        return;
      }
      j, y := j + 1, 2 * y;
    }
    y := y - c[hi];
    if y < 0 {
      OverStays(cs, hi, BMAX);
    } else {
      ShlMono(Limit(cs, hi), Pow2(hi), BMAX - hi);
    }
  }

  lemma {:induction false} OffsetMono(c: seq<nat>, k: nat, k': nat)
    requires |c| == BMAX + 1 && 1 <= k < k' <= BMAX
    ensures Offset(c, k) + c[k] <= Offset(c, k')
  {
    if k + 1 < k' { OffsetMono(c, k, k' - 1); }
  }

  lemma {:induction false} OffsetStep(b: seq<nat>, x: nat, k: nat)
    requires k <= BMAX
    ensures Offset(BlCount(b + [x]), k) == Offset(BlCount(b), k) + if 1 <= x < k then 1 else 0
  {
    if k > 1 {
      OffsetStep(b, x, k - 1);
      assert (b + [x])[..|b|] == b;
    }
  }

  /** The symbols of lengths up to `k` fit in the list. */
  lemma {:induction false} OffsetFits(b: seq<nat>, k: nat)
    requires 1 <= k <= BMAX
    ensures Offset(BlCount(b), k) + Count(b, k) <= |b|
  {
    if b == [] {
      NothingShorter(BlCount(b), k);
    } else {
      var t := b[..|b| - 1];
      assert b == t + [b[|b| - 1]];
      OffsetFits(t, k);
      OffsetStep(t, b[|b| - 1], k);
    }
  }

  /** Where symbol `s` goes in the list of values. */
  function Place(b: seq<nat>, s: nat): nat
    requires s < |b| && b[s] <= BMAX
  {
    Offset(BlCount(b), b[s]) + Count(b[..s], b[s])
  }

  lemma PlaceFits(b: seq<nat>, s: nat)
    requires s < |b| && 1 <= b[s] <= BMAX
    ensures Place(b, s) < Offset(BlCount(b), b[s]) + Count(b, b[s]) <= |b|
  {
    CountPrefix(b, s, b[s]);
    OffsetFits(b, b[s]);
  }

  lemma PlacesDiffer(b: seq<nat>, s: nat, s': nat)
    requires s < s' < |b| && 1 <= b[s] <= BMAX && 1 <= b[s'] <= BMAX
    ensures Place(b, s) != Place(b, s')
  {
    hide Offset, Count;
    if b[s] == b[s'] {
      assert b[..s'][..s] == b[..s];
      CountPrefix(b[..s'], s, b[s]);
    } else {
      PlaceFits(b, s);
      PlaceFits(b, s');
      if b[s] < b[s'] {
        OffsetMono(BlCount(b), b[s], b[s']);
      } else {
        OffsetMono(BlCount(b), b[s'], b[s]);
      }
    }
  }

  /** Starting offsets into the value table for each length up to `g`. */
  method StartOffsets(c: array<nat>, x: array<nat>, g: nat)
    requires c.Length == BMAX + 1 && x.Length == BMAX + 1 && c != x && 1 <= g <= BMAX
    modifies x
    ensures forall k :: 1 <= k <= g ==> x[k] == Offset(c[..], k)
  {
    x[1] := 0;
    var j, i := 0, 1;
    while i < g
      invariant 1 <= i <= g && j == Offset(c[..], i) && forall k :: 1 <= k <= i ==> x[k] == Offset(c[..], k)
    {
      j := j + c[i];
      i := i + 1;
      x[i] := j;
    }
  }

  /** Every symbol that has a code is at its place, and nothing was written past the last place. */
  ghost predicate InOrder(b: seq<nat>, v: seq<int>, g: nat)
    requires 1 <= g <= BMAX
  {
    && (forall s :: 0 <= s < |b| && 1 <= b[s] <= BMAX ==> Place(b, s) < |v| && v[Place(b, s)] == s)
    && (forall t :: Offset(BlCount(b), g) + Count(b, g) <= t < |v| ==> v[t] == UNWRITTEN)
  }

  /** Make the table of values in order of bit lengths. */
  method SortValues(b: seq<nat>, x: array<nat>, v: array<int>, g: nat)
    requires 1 <= g <= BMAX && x.Length == BMAX + 1 && v.Length == |b|
    requires forall i :: 0 <= i < |b| ==> b[i] <= g
    requires forall k :: 1 <= k <= g ==> x[k] == Offset(BlCount(b), k)
    requires forall t :: 0 <= t < v.Length ==> v[t] == UNWRITTEN
    modifies x, v
    ensures InOrder(b, v[..], g) && forall t :: 0 <= t < v.Length ==> UNWRITTEN <= v[t] < |b|
  {
    hide Offset, Count;
    ghost var top := Offset(BlCount(b), g) + Count(b, g);
    var i := 0;
    CountNone();
    while i < |b|
      invariant 0 <= i <= |b|
      invariant forall k :: 1 <= k <= g ==> x[k] == Offset(BlCount(b), k) + Count(b[..i], k)
      invariant forall s :: 0 <= s < i && b[s] >= 1 ==> Place(b, s) < v.Length && v[Place(b, s)] == s
      invariant forall t :: top <= t < v.Length ==> v[t] == UNWRITTEN
      invariant forall t :: 0 <= t < v.Length ==> UNWRITTEN <= v[t] < |b|
    {
      var j := b[i];
      CountNext(b, i);
      if j != 0 {
        PlaceFits(b, i);
        PlaceBelow(b, i, g);
        forall s | 0 <= s < i && b[s] >= 1 ensures Place(b, s) != Place(b, i) { PlacesDiffer(b, s, i); }
        v[x[j]] := i;
        x[j] := x[j] + 1;
      }
      i := i + 1;
    }
  }

  lemma CountNone()
    ensures forall k: nat :: Count([], k) == 0
  {
  }

  lemma CountNext(b: seq<nat>, i: nat)
    requires i < |b|
    ensures forall k: nat :: Count(b[..i + 1], k) == Count(b[..i], k) + if b[i] == k then 1 else 0
  {
    assert b[..i + 1][..i] == b[..i];
  }

  lemma PlaceBelow(b: seq<nat>, s: nat, g: nat)
    requires s < |b| && 1 <= b[s] <= g <= BMAX
    ensures Place(b, s) < Offset(BlCount(b), g) + Count(b, g)
  {
    hide Offset, Count;
    PlaceFits(b, s);
    if b[s] < g { OffsetMono(BlCount(b), b[s], g); }
  }

  // ---------------------------------------------------------------- from codes to symbols

  /** What decoding symbol `s` of length `k` yields. */
  function SymbolOutcome(vals: Values, s: nat, k: nat): Outcome
    requires vals.Covers(s + 1)
  {
    FromEntry(EntryFor(vals, s, k), k)
  }

  ghost predicate Longest(b: seq<nat>, g: nat) {
    1 <= g <= BMAX && Count(b, g) > 0 && forall i :: 0 <= i < |b| ==> b[i] <= g
  }

  /** At every table boundary below the root fewer than `2^l` patterns are left for the codes
      that reach the next boundary. */
  ghost predicate LookupFits(b: seq<nat>, g: nat, l: nat)
    requires g <= BMAX
  {
    forall w :: l <= w && w + l < g && Level(w, l) ==> Pow2(w + l) - NextCode(BlCount(b), w + l) < Pow2(l)
  }

  /** The code set built for the lengths `b`: unused patterns become codes of the longest length. */
  ghost predicate Describes(cs: Codes, b: seq<nat>, g: nat, vals: Values) {
    && cs.Valid() && cs.g == g && cs.n == |b| && cs.vals == vals && Longest(b, g) && InOrder(b, cs.v, g)
    && cs.c == BlCount(b)[g := cs.c[g]] && cs.c[g] >= Count(b, g)
  }

  lemma {:induction false} PaddingAbove(c: seq<nat>, c': seq<nat>, g: nat, k: nat)
    requires |c| == BMAX + 1 && 1 <= k <= g <= BMAX && |c'| == BMAX + 1 && c' == c[g := c'[g]]
    ensures NextCode(c', k) == NextCode(c, k) && Offset(c', k) == Offset(c, k)
  {
    if k > 1 { PaddingAbove(c, c', g, k - 1); }
  }

  lemma FitsMeansOk(cs: Codes, b: seq<nat>, g: nat, vals: Values)
    requires Describes(cs, b, g, vals)
    ensures cs.WidthOk() <==> LookupFits(b, g, cs.l)
  {
    hide NextCode, Offset, Level, Full, Pow2, Count;
    forall k: nat | 1 <= k <= g ensures NextCode(cs.c, k) == NextCode(BlCount(b), k) {
      PaddingAbove(BlCount(b), cs.c, g, k);
    }
  }

  lemma HeadsOutcome(cs: Codes, b: seq<nat>, g: nat, vals: Values, s: nat, v: nat)
    requires Describes(cs, b, g, vals) && Heads(b, s, v)
    ensures HasLength(cs.c, b[s], v) && CodeOutcome(cs, b[s], v) == SymbolOutcome(vals, s, b[s])
  {
    hide NextCode, Offset, Full, Count, Rev;
    PaddingAbove(BlCount(b), cs.c, g, b[s]);
    CountPrefix(b, s, b[s]);
    assert cs.v[Place(b, s)] == s;
  }

  /** The index in the value table of a pattern that no symbol uses. */
  function UnusedIndex(b: seq<nat>, g: nat, v: nat): int
    requires g <= BMAX
  {
    Offset(BlCount(b), g) + Rev(v, g) - NextCode(BlCount(b), g)
  }

  lemma UnheadedOutcome(cs: Codes, b: seq<nat>, g: nat, vals: Values, k: nat, v: nat)
    requires Describes(cs, b, g, vals) && HasLength(cs.c, k, v) && k <= g && forall s :: !Heads(b, s, v)
    ensures CodeOutcome(cs, k, v) == if UnusedIndex(b, g, v) >= |b| then BadCode else Wild
  {
    hide NextCode, Offset, Full, Rev;
    PaddingAbove(BlCount(b), cs.c, g, k);
    var q := Rev(v, k) - NextCode(cs.c, k);
    if q < Count(b, k) { SomeHeads(b, k, v); }
  }

  /** On tables that fit, the walk finds the symbol at the head of the stream and its bits. */
  lemma FindsSymbol(cs: Codes, b: seq<nat>, g: nat, vals: Values, nodes: seq<Node>, tables: seq<seq<Huft>>, s: nat,
      v: nat)
    requires Describes(cs, b, g, vals) && Built(cs, nodes, tables) && LookupFits(b, g, cs.l) && Heads(b, s, v)
    ensures Walk(tables, 0, cs.l, v, 0) == SymbolOutcome(vals, s, b[s])
  {
    hide Walk, LookupFits, Built, InOrder, SymbolOutcome, CodeOf, Rev;
    FitsMeansOk(cs, b, g, vals);
    var k := WalkDecodes(cs, nodes, tables, v);
    HeadsOutcome(cs, b, g, vals, s, v);
    PrefixFree(cs.c, k, b[s], v);
  }

  /** ... and rejects a stream headed by no symbol, unless it takes it for an unwritten value. */
  lemma FindsNone(cs: Codes, b: seq<nat>, g: nat, vals: Values, nodes: seq<Node>, tables: seq<seq<Huft>>, v: nat)
    requires Describes(cs, b, g, vals) && Built(cs, nodes, tables) && LookupFits(b, g, cs.l)
    requires forall s :: !Heads(b, s, v)
    ensures Walk(tables, 0, cs.l, v, 0) == if UnusedIndex(b, g, v) >= |b| then BadCode else Wild
  {
    hide Walk, Heads, LookupFits, Built, InOrder, UnusedIndex;
    FitsMeansOk(cs, b, g, vals);
    var k := WalkDecodes(cs, nodes, tables, v);
    UnheadedOutcome(cs, b, g, vals, k, v);
  }

  /** On tables that do not fit, the walk on one bits reads memory that was never written. */
  lemma RunsWild(cs: Codes, b: seq<nat>, g: nat, vals: Values, nodes: seq<Node>, tables: seq<seq<Huft>>)
    requires Describes(cs, b, g, vals) && Built(cs, nodes, tables) && !LookupFits(b, g, cs.l)
    ensures Walk(tables, 0, cs.l, Ones(g), 0) == Wild
  {
    hide Walk, LookupFits, InOrder, NextCode, Ones, Level;
    FitsMeansOk(cs, b, g, vals);
    var w :| cs.l <= w && w + cs.l < cs.g && Level(w, cs.l) && Pow2(w + cs.l) - NextCode(cs.c, w + cs.l) >= Pow2(cs.l);
    assert NodeOk(cs, nodes[0]);
    RootIsOnes(nodes[0]);
    WalkGoesWild(cs, nodes, tables, 0, w);
  }

  lemma RootIsOnes(nd: Node)
    requires nd.w == 0 && nd.prefix < Pow2(0)
    ensures nd.prefix == Ones(nd.w)
  {
  }

  // ---------------------------------------------------------------- the whole routine

  ghost predicate AllZero(b: seq<nat>) {
    forall i :: 0 <= i < |b| ==> b[i] == 0
  }

  /** The tables decode exactly as the canonical code of the lengths does. */
  ghost predicate DecodesAs(tables: seq<seq<Huft>>, m: nat, b: seq<nat>, vals: Values)
    requires vals.Covers(|b|)
  {
    forall s: nat, v: nat :: Heads(b, s, v) ==> Walk(tables, 0, m, v, 0) == SymbolOutcome(vals, s, b[s])
  }

  /** Streams headed by no symbol are rejected, or taken for values never written. */
  ghost predicate RejectsRest(tables: seq<seq<Huft>>, m: nat, b: seq<nat>, g: nat)
    requires g <= BMAX
  {
    forall v: nat :: (forall s: nat :: !Heads(b, s, v)) ==>
      Walk(tables, 0, m, v, 0) == if UnusedIndex(b, g, v) >= |b| then BadCode else Wild
  }

  /** What the tables built for the lengths `b` promise. */
  lemma BuiltPromise(cs: Codes, b: seq<nat>, g: nat, vals: Values, nodes: seq<Node>, tables: seq<seq<Huft>>)
    requires Describes(cs, b, g, vals) && Built(cs, nodes, tables) && vals.Covers(|b|)
    ensures LookupFits(b, g, cs.l) ==> DecodesAs(tables, cs.l, b, vals) && RejectsRest(tables, cs.l, b, g)
    ensures !LookupFits(b, g, cs.l) ==> Walk(tables, 0, cs.l, Ones(g), 0) == Wild
  {
    hide Walk, LookupFits, CodeOf, Rev, Built, Ones, SymbolOutcome, UnusedIndex, InOrder, Full;
    if LookupFits(b, g, cs.l) {
      forall s: nat, v: nat | Heads(b, s, v)
        ensures Walk(tables, 0, cs.l, v, 0) == SymbolOutcome(vals, s, b[s])
      {
        FindsSymbol(cs, b, g, vals, nodes, tables, s, v);
      }
      forall v: nat | forall s: nat :: !Heads(b, s, v)
        ensures Walk(tables, 0, cs.l, v, 0) == if UnusedIndex(b, g, v) >= |b| then BadCode else Wild
      {
        FindsNone(cs, b, g, vals, nodes, tables, v);
      }
    } else {
      RunsWild(cs, b, g, vals, nodes, tables);
    }
  }

  /** What the tables are good for: where the lookup width fits, they decode canonically and reject
      the rest; where it does not, a stream leads out of their written part. So for a complete set
      decoding is right exactly when the width fits. */
  ghost predicate GoodTables(b: seq<nat>, vals: Values, g: nat, tables: seq<seq<Huft>>, m: nat)
    requires vals.Covers(|b|) && g <= BMAX
  {
    && Sane(tables, m) && (m == g ==> NoLinks(tables))
    && (LookupFits(b, g, m) ==> DecodesAs(tables, m, b, vals) && RejectsRest(tables, m, b, g))
    && (!LookupFits(b, g, m) ==> Walk(tables, 0, m, Ones(g), 0) == Wild)
    && (Complete(b) ==> (DecodesAs(tables, m, b, vals) <==> LookupFits(b, g, m)))
  }

  /** huft_build: result 0 for a complete set, an empty one or a lone one-bit
      code, 1 for an incomplete set, 2 for an oversubscribed one. Tables come with the lookup width
      `m'`; `g` is the longest length. */
  method Build(b: seq<nat>, vals: Values, m: nat) returns (r: nat, tables: seq<seq<Huft>>, m': nat, ghost g: nat)
    requires 1 <= |b| <= N_MAX && vals.Covers(|b|) && forall i :: 0 <= i < |b| ==> b[i] <= BMAX
    ensures AllZero(b) ==> r == 0 && tables == [] && m' == 0
    ensures !AllZero(b) ==> (r == 2 <==> Limit(BlCount(b), BMAX) > Pow2(BMAX))
    ensures !AllZero(b) && r != 2 ==>
              && Longest(b, g) && 1 <= m' <= g && (m' == g || m <= m')
              && r == (if Complete(b) || g == 1 then 0 else 1)
              && GoodTables(b, vals, g, tables, m')
  {
    hide GoodTables, Count, NextCode, Complete, Pow2, Full;
    var n := |b|;
    var c, x, v := new nat[BMAX + 1], new nat[BMAX + 1], new int[n](_ => UNWRITTEN);
    CountLengths(b, c);
    ZeroCount(b);
    if c[0] == n {
      return 0, [], 0, 0;
    }
    SomeLength(b);
    var lo, hi := Extremes(c);
    var l := if m < lo then lo else m;
    l := if l > hi then hi else l;
    g := hi;
    LongestIs(b, hi);
    var y := Leftover(c, lo, hi);
    if y < 0 {
      return 2, [], l, hi;
    }
    CompleteIs(b, hi);
    PadCounts(b, c, hi, y);
    tables := TablesFor(b, vals, c, x, v, lo, hi, l);
    r := if y != 0 && hi != 1 then 1 else 0;
    m' := l;
  }

  /** Adjust the last length count to fill out the codes. */
  method PadCounts(b: seq<nat>, c: array<nat>, g: nat, y: nat)
    requires c.Length == BMAX + 1 && 1 <= g <= BMAX && c[..] == BlCount(b) && c[g] > 0
    requires y == Pow2(g) - Limit(BlCount(b), g)
    modifies c
    ensures c[..] == BlCount(b)[g := c[g]] && c[g] >= Count(b, g) && Full(c[..], g)
  {
    hide Count, NextCode;
    c[g] := c[g] + y;
    assert c[..] == BlCount(b)[g := c[g]];
    PaddingAbove(BlCount(b), c[..], g, g);
  }

  /** Sort the symbols and fill the tables, the counts having been padded to a full set. */
  method TablesFor(b: seq<nat>, vals: Values, c: array<nat>, x: array<nat>, v: array<int>, lo: nat, g: nat, l: nat)
    returns (tables: seq<seq<Huft>>)
    requires Longest(b, g) && vals.Covers(|b|) && 1 <= lo <= g && 1 <= l <= g
    requires c.Length == BMAX + 1 && x.Length == BMAX + 1 && c != x && v.Length == |b|
    requires c[..] == BlCount(b)[g := c[g]] && c[g] >= Count(b, g) && Full(c[..], g)
    requires c[lo] > 0 && forall j :: 1 <= j < lo ==> c[j] == 0
    requires forall t :: 0 <= t < v.Length ==> v[t] == UNWRITTEN
    modifies x, v
    ensures GoodTables(b, vals, g, tables, l)
  {
    hide Walk, LookupFits, Heads, Ones, DecodesAs, RejectsRest, Built, Offset, Count, NextCode, InOrder, Full, Sane,
    NoLinks;
    StartOffsets(c, x, g);
    forall k: nat | 1 <= k <= g ensures Offset(c[..], k) == Offset(BlCount(b), k) {
      PaddingAbove(BlCount(b), c[..], g, k);
    }
    SortValues(b, x, v, g);
    var cs := Codes(c[..], g, l, v[..], |b|, vals);
    ghost var nodes;
    tables, nodes := FillTables(cs, lo);
    BuiltPromise(cs, b, g, vals, nodes, tables);
    BuiltIsSane(cs, nodes, tables);
    if l == g { OneLevel(cs, nodes, tables); }
    ExactlyWhenFits(b, vals, g, tables, l);
  }

  lemma {:induction false} ZeroCount(b: seq<nat>)
    ensures Count(b, 0) == |b| <==> AllZero(b)
  {
    if b != [] {
      ZeroCount(b[..|b| - 1]);
    }
  }

  lemma SomeLength(b: seq<nat>)
    requires !AllZero(b) && forall i :: 0 <= i < |b| ==> b[i] <= BMAX
    ensures exists k :: 1 <= k <= BMAX && BlCount(b)[k] != 0
  {
    var i :| 0 <= i < |b| && b[i] != 0;
    CountPrefix(b, i, b[i]);
    assert BlCount(b)[b[i]] != 0;
  }

  lemma LongestIs(b: seq<nat>, g: nat)
    requires 1 <= g <= BMAX && BlCount(b)[g] != 0 && forall i :: 0 <= i < |b| ==> b[i] <= BMAX
    requires forall k :: g < k <= BMAX ==> BlCount(b)[k] == 0
    ensures Longest(b, g)
  {
    forall i | 0 <= i < |b|
      ensures b[i] <= g
    {
      CountPrefix(b, i, b[i]);
    }
  }

  lemma CompleteIs(b: seq<nat>, g: nat)
    requires 1 <= g <= BMAX && forall k :: g < k <= BMAX ==> BlCount(b)[k] == 0
    ensures Complete(b) <==> Limit(BlCount(b), g) == Pow2(g)
  {
    hide Limit, Shl, Pow2, Count, BlCount;
    var limit := Limit(BlCount(b), g);
    LimitScales(BlCount(b), g, BMAX);
    ShlPow2(g, BMAX - g);
    if limit < Pow2(g) { ShlMono(limit, Pow2(g), BMAX - g); }
    if limit > Pow2(g) { ShlMono(Pow2(g), limit, BMAX - g); }
  }

  /** A complete set is decoded correctly exactly when the lookup width fits it. */
  lemma ExactlyWhenFits(b: seq<nat>, vals: Values, g: nat, tables: seq<seq<Huft>>, m: nat)
    requires vals.Covers(|b|) && g <= BMAX
    requires LookupFits(b, g, m) ==> DecodesAs(tables, m, b, vals)
    requires !LookupFits(b, g, m) ==> Walk(tables, 0, m, Ones(g), 0) == Wild
    ensures Complete(b) ==> (DecodesAs(tables, m, b, vals) <==> LookupFits(b, g, m))
  {
    hide Walk, LookupFits, Rev, CodeOf, Complete, Ones;
    if Complete(b) {
      CompleteDecodes(b, Ones(g));
      var s: nat :| Heads(b, s, Ones(g));
      assert SymbolOutcome(vals, s, b[s]) != Wild;
    }
  }

  // ---------------------------------------------------------------- when the width fits

  lemma FitsWhenShallow(b: seq<nat>, g: nat, l: nat)
    requires g <= BMAX && g <= 2 * l
    ensures LookupFits(b, g, l)
  {
  }

  /** Symbols with codes of at least `k` bits. */
  function CodesFrom(c: seq<nat>, k: nat, g: nat): nat
    requires |c| == BMAX + 1 && g <= BMAX
    decreases g + 1 - k
  {
    if k > g then 0 else c[k] + CodesFrom(c, k + 1, g)
  }

  /** Every pattern left over for the longer codes begins at least one of them. */
  lemma {:induction false} PatternsNeedCodes(c: seq<nat>, k: nat, g: nat)
    requires Full(c, g) && 1 <= k <= g
    ensures Pow2(k) - NextCode(c, k) <= CodesFrom(c, k, g)
    decreases g - k
  {
    if k < g {
      FullBelow(c, g, k);
      PatternsNeedCodes(c, k + 1, g);
    }
  }

  lemma {:induction false} CodesFromOffset(c: seq<nat>, k: nat, g: nat)
    requires |c| == BMAX + 1 && 1 <= k <= g <= BMAX
    ensures Offset(c, k) + CodesFrom(c, k, g) == Offset(c, g) + c[g]
    decreases g - k
  {
    if k < g { CodesFromOffset(c, k + 1, g); }
  }

  /** A complete set of fewer than `2^l` symbols fits every lookup width of `l` bits. */
  lemma FitsWhenFew(b: seq<nat>, g: nat, l: nat)
    requires Longest(b, g) && Limit(BlCount(b), g) == Pow2(g) && 1 <= l && |b| < Pow2(l)
    ensures LookupFits(b, g, l)
  {
    hide NextCode, Offset, Count, Level, Pow2;
    var c := BlCount(b);
    forall w: nat | l <= w && w + l < g && Level(w, l)
      ensures Pow2(w + l) - NextCode(c, w + l) < Pow2(l)
    {
      PatternsNeedCodes(c, w + l, g);
      CodesFromOffset(c, w + l, g);
      OffsetFits(b, g);
    }
  }

  /** A complete set that does not fit: one code of one bit and four of three, looked up one bit
      at a time. The walk on one bits then leaves the tables' written part. */
  lemma OneBitLookupFails()
    ensures var b := [1, 3, 3, 3, 3]; Longest(b, 3) && Limit(BlCount(b), 3) == Pow2(3) && !LookupFits(b, 3, 1)
  {
    var b := [1, 3, 3, 3, 3];
    SmallCounts(b);
    assert Level(0, 1) && Level(1, 1);
    assert NextCode(BlCount(b), 1) == 0 && NextCode(BlCount(b), 2) == 2 && NextCode(BlCount(b), 3) == 4;
  }

  lemma SmallCounts(b: seq<nat>)
    requires b == [1, 3, 3, 3, 3]
    ensures Count(b, 1) == 1 && Count(b, 2) == 0 && Count(b, 3) == 4
  {
    for i := 0 to 5
      invariant Count(b[..i], 1) == (if i >= 1 then 1 else 0) && Count(b[..i], 2) == 0
      invariant Count(b[..i], 3) == (if i >= 1 then i - 1 else 0)
    {
      CountNext(b, i);
    }
    assert b[..5] == b;
  }
}
