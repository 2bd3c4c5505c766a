/** The decompressor of zBoot/inflate.c. */
module Inflate {
  import opened Basics
  import opened Bits
  import opened Canonical
  import opened Crc
  import opened HuftTables
  import opened HuftLookup
  import opened HuftBuild
  import opened Window
  import opened BitSource
  import opened Deflate

  /** How a routine ends: result 0; a nonzero result; a halt for want of input; or a read of memory
      that was never written. */
  datatype Status = Ok | Error | Halted | Astray

  const HALT: nat := 16                 // fewer bits are left when the input has run out

  const LIT_VALUES := Values(257, LENGTHS, LENGTH_EXTRA)
  const DIST_VALUES := Values(0, DISTANCES, DISTANCE_EXTRA)
  const TREE_VALUES := Values(19, [], [])

  /** Tables that decode a set of lengths and let no other stream through. */
  ghost predicate Decoder(tables: seq<seq<Huft>>, m: nat, lens: seq<nat>, vals: Values) {
    && vals.Covers(|lens|) && Sane(tables, m) && DecodesAs(tables, m, lens, vals)
    && forall v: nat :: (forall s: nat :: !Heads(lens, s, v)) ==> Walk(tables, 0, m, v, 0) in {BadCode, Wild}
  }

  ghost function Rest(src: Source): Stream
    reads src
    requires src.inptr <= |src.input|
  {
    Stream(src.Stream(), src.Left())
  }

  /** Decode one symbol: look up, follow links, and drop the bits of the code. */
  method DecodeSymbol(src: Source, tables: seq<seq<Huft>>, bits: nat) returns (halted: bool, o: Outcome)
    requires src.Valid() && Sane(tables, bits)
    modifies src
    ensures src.Valid()
    ensures !halted ==> o == Walk(tables, 0, bits, old(src.Stream()), 0)
    ensures !halted && o.Symbol? ==>
              o.used <= old(src.Left()) && src.Stream() == Shr(old(src.Stream()), o.used)
                && src.Left() == old(src.Left()) - o.used
    ensures src.Left() <= old(src.Left()) && (halted ==> src.Left() < HALT)
    ensures halted ==>
      var w := Walk(tables, 0, bits, old(src.Stream()), 0); w.Symbol? ==> old(src.Left()) < w.used + BMAX
  {
    hide Low, Shr, Shl, Pow2, Number;
    halted, o := false, Wild;
    if |tables| == 0 {
      return;
    }
    var t: nat, width: nat, used: nat := 0, bits, 0;
    assert Shr(src.Stream(), 0) == src.Stream() by { ShrZero(src.Stream()); }
    while true
      invariant src.Valid() && Serves(tables, t, width)
      invariant used <= old(src.Left()) && src.Stream() == Shr(old(src.Stream()), used)
      invariant src.Left() == old(src.Left()) - used
      invariant Walk(tables, t, width, src.Stream(), used) == Walk(tables, 0, bits, old(src.Stream()), 0)
      decreases |tables| - t
    {
      var ok := src.Need(width);
      if !ok {
        WalkUsed(tables, t, width, src.Stream(), used);
        return true, Wild;
      }
      var i := src.Peek(width);
      LowFits(src.Stream(), width);
      assert i < |tables[t]| && BitsFit(tables[t][i], width);
      var ent := tables[t][i];
      ShrShr(old(src.Stream()), used, if ent.Unset? then 0 else ent.b);
      match ent {
        case Unset => return false, Wild;
        case Junk(_) => return false, Wild;
        case Entry(e, b, n) =>
          if e == 99 {
            return false, BadCode;
          }
          src.Dump(b);
          return false, Symbol(e, n, used + b);
        case Link(e, b, t') =>
          assert LinkSane(tables, t, ent);
          src.Dump(b);
          t, width, used := t', e - 16, used + b;
      }
    }
  }

  /** A walk consumes at least what it has consumed already. */
  lemma {:induction false} WalkUsed(tables: seq<seq<Huft>>, t: nat, width: nat, v: nat, used: nat)
    ensures var w := Walk(tables, t, width, v, used); w.Symbol? ==> w.used >= used
    decreases |tables| - t
  {
    if t < |tables| && Low(v, width) < |tables[t]| {
      var ent := tables[t][Low(v, width)];
      if ent.Link? && t < ent.t && ent.e >= 16 {
        WalkUsed(tables, ent.t, ent.e - 16, Shr(v, ent.b), used + ent.b);
      }
    }
  }

  lemma ShrZero(v: nat)
    ensures Shr(v, 0) == v
  {
  }

  lemma LowFits(v: nat, n: nat)
    ensures Low(v, n) < Pow2(n)
  {
  }

  /** A stream headed by a symbol, and what its lookup yields. */
  lemma DecoderFinds(tables: seq<seq<Huft>>, m: nat, lens: seq<nat>, vals: Values, v: nat)
    requires Decoder(tables, m, lens, vals)
    ensures HeadOf(lens, v).Some? ==>
              var s := HeadOf(lens, v).value;
              s < |lens| && 1 <= lens[s] && Walk(tables, 0, m, v, 0) == SymbolOutcome(vals, s, lens[s])
    ensures HeadOf(lens, v).None? ==> Walk(tables, 0, m, v, 0) in {BadCode, Wild}
  {
    hide Walk, Rev, CodeOf, SymbolOutcome, Sane;
  }

  /** What the literal and length tables say about a symbol. */
  lemma LiteralOutcome(s: nat, k: nat)
    requires s < 288 && LIT_VALUES.Covers(s + 1)
    ensures s > LAST_LENGTH ==> SymbolOutcome(LIT_VALUES, s, k) == BadCode
    ensures s < END_OF_BLOCK ==> SymbolOutcome(LIT_VALUES, s, k) == Symbol(16, s, k)
    ensures s == END_OF_BLOCK ==> SymbolOutcome(LIT_VALUES, s, k) == Symbol(15, s, k)
    ensures END_OF_BLOCK < s <= LAST_LENGTH ==>
              SymbolOutcome(LIT_VALUES, s, k) == Symbol(LENGTH_EXTRA[s - 257], LENGTHS[s - 257], k)
                && LENGTH_EXTRA[s - 257] <= 5
  {
    hide Values.Covers;
    if s > END_OF_BLOCK { LengthExtra(s - 257); }
  }

  lemma LengthExtra(j: nat)
    requires j < 31
    ensures if j < 29 then LENGTH_EXTRA[j] <= 5 else LENGTH_EXTRA[j] == 99
  {
  }

  lemma DistanceExtra(j: nat)
    requires j < 30
    ensures DISTANCE_EXTRA[j] <= 13
  {
  }

  lemma DistanceOutcome(d: nat, k: nat)
    requires d < 30 && DIST_VALUES.Covers(d + 1)
    ensures SymbolOutcome(DIST_VALUES, d, k) == Symbol(DISTANCE_EXTRA[d], DISTANCES[d], k) && DISTANCE_EXTRA[d] <= 13
  {
    hide Values.Covers;
    DistanceExtra(d);
    PlainOutcome(DIST_VALUES, d, k);
    hide SymbolOutcome;
  }

  lemma PlainOutcome(vals: Values, d: nat, k: nat)
    requires vals.Covers(d + 1) && vals.s == 0 && d < |vals.e| && d < |vals.d| && vals.e[d] < 99
    ensures SymbolOutcome(vals, d, k) == Symbol(vals.e[d], vals.d[d], k)
  {
  }

  /** Distance code and extra distance bits of a match of length `n`. */
  method ReadDistance(src: Source, td: seq<seq<Huft>>, bd: nat, n: nat, ghost dist: seq<nat>)
    returns (r: Status, d: nat)
    requires src.Valid() && Decoder(td, bd, dist, DIST_VALUES) && |dist| <= 30
    modifies src
    ensures src.Valid() && src.Left() <= old(src.Left())
    ensures var m := DistanceAt(dist, n, old(Rest(src)));
            match r
            case Ok => m == Match(n, d, Rest(src)) && 1 <= d <= WSIZE
            case Halted => src.Left() < HALT && (m.Match? ==> m.rest.left < BMAX)
            case _ => m == BadMatch
  {
    hide Shr, Low, Walk, Heads, Sane, SymbolOutcome;
    d := 0;
    ghost var v := src.Stream();
    DecoderFinds(td, bd, dist, DIST_VALUES, v);
    var halted, o := DecodeSymbol(src, td, bd);
    if HeadOf(dist, v).Some? { DistanceOutcome(HeadOf(dist, v).value, dist[HeadOf(dist, v).value]); }
    if halted {
      return Halted, 0;
    }
    if !o.Symbol? {
      return (if o == BadCode then Error else Astray), 0;
    }
    ghost var t := HeadOf(dist, v).value;
    v := src.Stream();
    var ok, x := src.Get(o.e);
    if !ok {
      return Halted, 0;
    }
    d := o.n + x;
    LowFits(v, o.e);
    DistanceFits(t, x);
    r := Ok;
  }

  /** Extra length bits, then the distance. */
  method ReadMatch(src: Source, td: seq<seq<Huft>>, bd: nat, e: nat, base: nat, ghost dist: seq<nat>, ghost s: nat)
    returns (r: Status, n: nat, d: nat)
    requires src.Valid() && Decoder(td, bd, dist, DIST_VALUES) && |dist| <= 30
    requires END_OF_BLOCK < s <= LAST_LENGTH && e == LENGTH_EXTRA[s - 257] && base == LENGTHS[s - 257] && e <= 5
    modifies src
    ensures src.Valid() && src.Left() <= old(src.Left())
    ensures var m := MatchAfter(dist, s, old(Rest(src)));
            match r
            case Ok => m == Match(n, d, Rest(src)) && 1 <= d <= WSIZE && n >= 3
            case Halted => src.Left() < HALT && (m.Match? ==> m.rest.left < BMAX)
            case _ => m == BadMatch
  {
    hide Shr, Low, Decoder, DistanceAt, Number, Shl, Pow2, HeadOf;
    LengthBase(s - 257);
    var ok, x := src.Get(e);
    if !ok {
      return Halted, 0, 0;
    }
    n := base + x;
    r, d := ReadDistance(src, td, bd, n, dist);
  }

  /** A routine's result agrees with what the stream means; a halt can only come within the last few bits. */
  ghost predicate Agrees(end: End, r: Status, out: seq<byte>, rest: Stream) {
    match r
    case Ok => end == Done(out, rest)
    case Halted => rest.left < HALT && (end.Done? ==> end.rest.left < BMAX)
    case _ => end == Invalid
  }

  /** A match: its length and distance, and the copy. */
  method OneMatch(src: Source, win: Slide, td: seq<seq<Huft>>, bd: nat, e: nat, base: nat, ghost dist: seq<nat>,
      ghost s: nat)
    returns (r: Status)
    requires src.Valid() && win.Valid() && Decoder(td, bd, dist, DIST_VALUES) && |dist| <= 30
    requires END_OF_BLOCK < s <= LAST_LENGTH && e == LENGTH_EXTRA[s - 257] && base == LENGTHS[s - 257] && e <= 5
    modifies src, win.Repr()
    ensures src.Valid() && win.Valid() && src.Left() <= old(src.Left())
    ensures var m := MatchAfter(dist, s, old(Rest(src)));
            match r
            case Ok => m.Match? && m.rest == Rest(src) && win.Out() == LzCopy(old(win.Out()), m.dist, m.len)
            case Halted => src.Left() < HALT && (m.Match? ==> m.rest.left < BMAX)
            case _ => m == BadMatch
  {
    hide Decoder, Ring, Register, IsTable, LzCopy, MatchAfter, Number, Shl;
    var n, d;
    r, n, d := ReadMatch(src, td, bd, e, base, dist, s);
    if r == Ok {
      win.CopyMatch(d, n);
    }
  }

  /** What a literal or length code says: operation or extra bits, and value. */
  ghost predicate Says(s: nat, e: nat, n: nat) {
    && s <= LAST_LENGTH
    && (s < END_OF_BLOCK ==> e == 16 && n == s)
    && (s == END_OF_BLOCK ==> e == 15)
    && (s > END_OF_BLOCK ==> e == LENGTH_EXTRA[s - 257] && n == LENGTHS[s - 257] && e <= 5)
  }

  method ReadLiteral(src: Source, tl: seq<seq<Huft>>, bl: nat, ghost lit: seq<nat>) returns (r: Status, e: nat, n: nat)
    requires src.Valid() && Decoder(tl, bl, lit, LIT_VALUES) && |lit| <= 288
    modifies src
    ensures src.Valid()
    ensures src.Left() <= old(src.Left())
    ensures var h := HeadOf(lit, old(src.Stream()));
            match r
            case Ok => h.Some? && Says(h.value, e, n) && 1 <= lit[h.value] <= old(src.Left())
              && Rest(src) == old(Rest(src)).Drop(lit[h.value])
            case Halted =>
              src.Left() < HALT && (h.Some? && h.value <= LAST_LENGTH ==> old(src.Left()) < lit[h.value] + BMAX)
            case _ => h.None? || h.value > LAST_LENGTH
  {
    hide Shr, Walk, Rev, CodeOf, Sane, SymbolOutcome;
    ghost var v := src.Stream();
    DecoderFinds(tl, bl, lit, LIT_VALUES, v);
    ghost var h := HeadOf(lit, v);
    if h.Some? { LiteralOutcome(h.value, lit[h.value]); }
    var halted, o := DecodeSymbol(src, tl, bl);
    if halted {
      return Halted, 0, 0;
    }
    match o {
      case BadCode => return Error, 0, 0;
      case Wild => return Astray, 0, 0;
      case Symbol(_, _, _) => return Ok, o.e, o.n;
    }
  }

  /** One literal, match or end code; `more` tells whether the block goes on. */
  method OneSymbol(src: Source, win: Slide, tl: seq<seq<Huft>>, td: seq<seq<Huft>>, bl: nat, bd: nat,
                   ghost lit: seq<nat>, ghost dist: seq<nat>) returns (more: bool, r: Status)
    requires src.Valid() && win.Valid() && |lit| <= 288 && |dist| <= 30
    requires Decoder(tl, bl, lit, LIT_VALUES) && Decoder(td, bd, dist, DIST_VALUES)
    modifies src, win.Repr()
    ensures src.Valid() && win.Valid()
    ensures src.Left() <= old(src.Left())
    ensures var end := CodesEnd(lit, dist, old(Rest(src)), old(win.Out()), false);
            if more then src.Left() < old(src.Left()) && end == CodesEnd(lit, dist, Rest(src), win.Out(), false)
            else Agrees(end, r, win.Out(), Rest(src))
  {
    hide Decoder, Shr, Low, Rev, CodeOf, Ring, Register, IsTable, LzCopy, MatchAfter, Number, Shl, CodesEnd, HeadOf;
    more := false;
    ghost var st, out := Rest(src), win.Out();
    ghost var h := HeadOf(lit, st.v);
    LastStep(lit, dist, st, out, false);
    var e, n;
    r, e, n := ReadLiteral(src, tl, bl, lit);
    if r != Ok {
      return;
    }
    if e == 16 {
      LiteralSymbol(src, win, n, lit, dist, st, h.value);
      more := true;
    } else if e != 15 {
      r := MatchSymbol(src, win, td, bd, e, n, lit, dist, st, h.value);
      more := r == Ok;
    }
  }

  /** A literal: its byte put out. */
  method LiteralSymbol(src: Source, win: Slide, n: nat, ghost lit: seq<nat>, ghost dist: seq<nat>, ghost st: Stream,
      ghost s: nat)
    requires src.Valid() && win.Valid() && |dist| <= 30 && s < END_OF_BLOCK && n == s
    requires HeadOf(lit, st.v) == Some(s) && lit[s] <= st.left && Rest(src) == st.Drop(lit[s])
    modifies win.Repr()
    ensures win.Valid() && src.Valid() && Rest(src) == old(Rest(src))
    ensures CodesEnd(lit, dist, st, old(win.Out()), false) == CodesEnd(lit, dist, Rest(src), win.Out(), false)
  {
    hide Shr, Low, Rev, CodeOf, Ring, Register, IsTable, LzCopy, MatchAfter, Number, Shl, CodesEnd, HeadOf;
    LiteralStep(lit, dist, st, win.Out(), s, false);
    win.Put(n);
  }

  /** The rest of a match, its code having been read at `st`. */
  method MatchSymbol(src: Source, win: Slide, td: seq<seq<Huft>>, bd: nat, e: nat, base: nat,
                     ghost lit: seq<nat>, ghost dist: seq<nat>, ghost st: Stream, ghost s: nat) returns (r: Status)
    requires src.Valid() && win.Valid() && Decoder(td, bd, dist, DIST_VALUES) && |dist| <= 30
    requires END_OF_BLOCK < s <= LAST_LENGTH && e == LENGTH_EXTRA[s - 257] && base == LENGTHS[s - 257] && e <= 5
    requires HeadOf(lit, st.v) == Some(s) && lit[s] <= st.left && Rest(src) == st.Drop(lit[s])
    modifies src, win.Repr()
    ensures src.Valid() && win.Valid() && src.Left() <= old(src.Left())
    ensures var end := CodesEnd(lit, dist, st, old(win.Out()), false);
            if r == Ok then end == CodesEnd(lit, dist, Rest(src), win.Out(), false)
            else Agrees(end, r, win.Out(), Rest(src))
  {
    hide Decoder, Shr, Low, Rev, CodeOf, Ring, Register, IsTable, LzCopy, MatchAfter, Number, Shl, CodesEnd, HeadOf;
    MatchStep(lit, dist, st, win.Out(), s, false);
    MatchLeaves(lit, dist, st, win.Out(), s);
    r := OneMatch(src, win, td, bd, e, base, dist, s);
  }

  lemma MatchLeaves(lit: seq<nat>, dist: seq<nat>, st: Stream, out: seq<byte>, s: nat)
    requires |dist| <= 30 && HeadOf(lit, st.v) == Some(s) && END_OF_BLOCK < s <= LAST_LENGTH && lit[s] <= st.left
    ensures var m, end := MatchAfter(dist, s, st.Drop(lit[s])), CodesEnd(lit, dist, st, out, false);
            end.Done? && m.Match? ==> end.rest.left <= m.rest.left
  {
    hide CodesEnd, MatchAfter, LzCopy, Rev, CodeOf, Shr;
    MatchStep(lit, dist, st, out, s, false);
  }

  /** inflate_codes: a block of literals and matches. */
  method InflateCodes(src: Source, win: Slide, tl: seq<seq<Huft>>, td: seq<seq<Huft>>, bl: nat, bd: nat,
                      ghost lit: seq<nat>, ghost dist: seq<nat>) returns (r: Status)
    requires src.Valid() && win.Valid() && |lit| <= 288 && |dist| <= 30
    requires Decoder(tl, bl, lit, LIT_VALUES) && Decoder(td, bd, dist, DIST_VALUES)
    modifies src, win.Repr()
    ensures src.Valid() && win.Valid()
    ensures src.Left() <= old(src.Left())
    ensures Agrees(CodesEnd(lit, dist, old(Rest(src)), old(win.Out()), false), r, win.Out(), Rest(src))
  {
    hide Decoder, CodesEnd, Ring, Register, IsTable;
    ghost var end := CodesEnd(lit, dist, Rest(src), win.Out(), false);
    var more := true;
    r := Ok;
    while more
      invariant src.Valid() && win.Valid()
      invariant src.Left() <= old(src.Left())
      invariant if more then end == CodesEnd(lit, dist, Rest(src), win.Out(), false)
                else Agrees(end, r, win.Out(), Rest(src))
      decreases more, src.Left()
    {
      more, r := OneSymbol(src, win, tl, td, bl, bd, lit, dist);
    }
  }

  // ---------------------------------------------------------------- stored blocks

  /** Go to a byte boundary and get the length and its complement. */
  method StoredLength(src: Source, ghost out: seq<byte>) returns (r: Status, n: nat)
    requires src.Valid()
    modifies src
    ensures src.Valid()
    ensures src.Left() <= old(src.Left())
    ensures var end := StoredEnd(old(Rest(src)), out);
            match r
            case Ok => end == StoredBytes(n, Rest(src), out)
            case Halted => src.Left() < HALT && end == Short
            case _ => end == Invalid
  {
    hide Shr, Low, StoredBytes, Number, Shl, Pow2;
    assert src.bk % 8 == src.Left() % 8;
    src.Dump(src.bk % 8);
    assert Rest(src) == old(Rest(src)).Drop(old(src.Left()) % 8);
    var ok, m;
    ok, n := src.Get(16);
    if !ok {
      return Halted, 0;
    }
    ok, m := src.Get(16);
    if !ok {
      return Halted, 0;
    }
    r := if n + m != 0xffff then Error else Ok;
  }

  /** inflate_stored. */
  method InflateStored(src: Source, win: Slide) returns (r: Status)
    requires src.Valid() && win.Valid()
    modifies src, win.Repr()
    ensures src.Valid() && win.Valid()
    ensures src.Left() <= old(src.Left())
    ensures Agrees(StoredEnd(old(Rest(src)), old(win.Out())), r, win.Out(), Rest(src))
  {
    hide Ring, Register, IsTable, StoredBytes, StoredEnd, Number, Shl, Pow2;
    var n;
    r, n := StoredLength(src, win.Out());
    if r == Ok {
      r := CopyStored(src, win, n);
    }
  }

  method CopyStored(src: Source, win: Slide, n: nat) returns (r: Status)
    requires src.Valid() && win.Valid()
    modifies src, win.Repr()
    ensures src.Valid() && win.Valid()
    ensures src.Left() <= old(src.Left())
    ensures Agrees(StoredBytes(n, old(Rest(src)), old(win.Out())), r, win.Out(), Rest(src))
  {
    hide Ring, Register, IsTable, Shr, Low, Number, Shl, Pow2;
    ghost var end := StoredBytes(n, Rest(src), win.Out());
    var left := n;
    while left > 0
      invariant src.Valid() && win.Valid() && 0 <= left <= n && end == StoredBytes(left, Rest(src), win.Out())
      invariant src.Left() <= old(src.Left())
    {
      ghost var v := src.Stream();
      var ok, x := src.Get(8);
      if !ok {
        return Halted;
      }
      assert x == ByteAt(v);
      win.Put(x);
      left := left - 1;
    }
    r := Ok;
  }

  // ---------------------------------------------------------------- fixed blocks

  /** Tables that fit their lengths decode them. */
  lemma GoodDecoder(b: seq<nat>, vals: Values, g: nat, tables: seq<seq<Huft>>, m: nat)
    requires vals.Covers(|b|) && g <= BMAX && GoodTables(b, vals, g, tables, m) && LookupFits(b, g, m)
    ensures Decoder(tables, m, b, vals)
  {
    hide Walk, Heads, LookupFits, DecodesAs, Sane, NoLinks, UnusedIndex;
  }

  lemma {:induction false} CountRepeat(x: nat, n: nat, k: nat)
    ensures Count(Repeat(x, n), k) == if x == k then n else 0
  {
    if n > 0 {
      CountRepeat(x, n - 1, k);
      assert Repeat(x, n)[..n - 1] == Repeat(x, n - 1);
    }
  }

  lemma {:induction false} CountConcat(a: seq<nat>, b: seq<nat>, k: nat)
    ensures Count(a + b, k) == Count(a, k) + Count(b, k)
  {
    if b == [] {
      assert a + b == a;
    } else {
      CountConcat(a, b[..|b| - 1], k);
      assert (a + b)[..|a + b| - 1] == a + b[..|b| - 1];
    }
  }

  lemma FixedCounts(k: nat)
    ensures Count(FixedLit(), k) == (if k == 7 then 24 else if k == 8 then 152 else if k == 9 then 112 else 0)
  {
    hide Count, Repeat;
    var a, b, c, d := Repeat(8, 144), Repeat(9, 112), Repeat(7, 24), Repeat(8, 8);
    CountConcat(a + b + c, d, k);
    CountConcat(a + b, c, k);
    CountConcat(a, b, k);
    CountRepeat(8, 144, k);
    CountRepeat(9, 112, k);
    CountRepeat(7, 24, k);
    CountRepeat(8, 8, k);
  }

  /** The fixed literal code is complete, with nine bits at most. */
  lemma FixedLitComplete()
    ensures Complete(FixedLit()) && Longest(FixedLit(), 9) && !AllZero(FixedLit())
  {
    hide FixedLit, Count;
    var c := BlCount(FixedLit());
    forall k: nat | k <= BMAX
      ensures c[k] == (if k == 7 then 24 else if k == 8 then 152 else if k == 9 then 112 else 0)
    {
      FixedCounts(k);
    }
    NothingShorter(c, 7);
    assert NextCode(c, 8) == 48 && NextCode(c, 9) == 400;
    assert Pow2(9) == 512 by { assert Pow2(4) == 16 && Pow2(8) == 256; }
    FixedLitBound();
    FixedCounts(9);
    CompleteIs(FixedLit(), 9);
  }

  lemma FixedLitBound()
    ensures |FixedLit()| == 288 && FixedLit()[0] == 8 && forall i :: 0 <= i < 288 ==> FixedLit()[i] <= 9
  {
  }

  lemma LongestUnique(b: seq<nat>, g: nat, g': nat)
    requires Longest(b, g) && Longest(b, g')
    ensures g == g'
  {
    var s := NthSymbol(b, g, 0);
    var s' := NthSymbol(b, g', 0);
  }

  lemma FixedDistFits()
    ensures Longest(FixedDist(), 5) && !AllZero(FixedDist()) && Limit(BlCount(FixedDist()), BMAX) <= Pow2(BMAX)
  {
    hide Count, Repeat;
    var b := FixedDist();
    var c := BlCount(b);
    forall k: nat | k <= BMAX ensures c[k] == (if k == 5 then 30 else 0) { CountRepeat(5, 30, k); }
    NothingShorter(c, 5);
    LimitScales(c, 5, BMAX);
    assert Pow2(5) == 32 by { assert Pow2(3) == 8; }
    ShlMono(30, 32, BMAX - 5);
    ShlPow2(5, BMAX - 5);
    FixedDistBound();
  }

  lemma FixedDistBound()
    ensures |FixedDist()| == 30 && FixedDist()[0] == 5 && forall i :: 0 <= i < 30 ==> FixedDist()[i] == 5
  {
  }

  /** A stretch of the list of lengths set to one value. */
  method FillRange(l: array<nat>, from: nat, to: nat, x: nat)
    requires from <= to <= l.Length
    modifies l
    ensures forall k :: 0 <= k < l.Length ==> l[k] == if from <= k < to then x else old(l[k])
  {
    var i := from;
    while i < to
      invariant from <= i <= to
      invariant forall k :: 0 <= k < l.Length ==> l[k] == if from <= k < i then x else old(l[k])
    {
      l[i] := x;
      i := i + 1;
    }
  }

  /** The literal lengths as inflate_fixed sets them. */
  method FillLit() returns (r: seq<nat>)
    ensures r == FixedLit()
  {
    var l := new nat[288];
    FillRange(l, 0, 144, 8);
    FillRange(l, 144, 256, 9);
    FillRange(l, 256, 280, 7);
    FillRange(l, 280, 288, 8);
    forall s: nat | s < 288 ensures l[s] == FixedLit()[s] { FixedLengths(s); }
    FixedLengths(0);
    hide FixedLit;
    r := l[..];
  }

  method FillDist() returns (r: seq<nat>)
    ensures r == FixedDist()
  {
    var l := new nat[288];
    FillRange(l, 0, 30, 5);
    forall s: nat | s < 30 ensures l[s] == FixedDist()[s] { FixedLengths(s); }
    FixedLengths(0);
    hide FixedDist;
    r := l[..30];
  }

  /** inflate_fixed. */
  method InflateFixed(src: Source, win: Slide) returns (r: Status)
    requires src.Valid() && win.Valid()
    modifies src, win.Repr()
    ensures src.Valid() && win.Valid()
    ensures src.Left() <= old(src.Left())
    ensures Agrees(CodesEnd(FixedLit(), FixedDist(), old(Rest(src)), old(win.Out()), false), r, win.Out(), Rest(src))
  {
    hide Ring, Register, IsTable, CodesEnd, GoodTables, Decoder, Repeat, Complete, Limit, LookupFits, AllZero, Longest,
    Pow2, FixedLit, FixedDist;
    FixedLitComplete();
    NotOver(FixedLit());
    FixedLitBound();
    FixedDistFits();
    FixedDistBound();
    var lit := FillLit();
    var i, tl, bl, td, bd;
    ghost var g;
    CoversFixed();
    i, tl, bl, g := Build(lit, LIT_VALUES, 7);
    if i != 0 {
      return Error;
    }
    LongestUnique(lit, g, 9);
    FitsWhenShallow(lit, 9, bl);
    GoodDecoder(lit, LIT_VALUES, 9, tl, bl);
    var dist := FillDist();
    i, td, bd, g := Build(dist, DIST_VALUES, 5);
    if i > 1 {
      return Error;
    }
    LongestUnique(dist, g, 5);
    FitsWhenShallow(dist, 5, bd);
    GoodDecoder(dist, DIST_VALUES, 5, td, bd);
    r := InflateCodes(src, win, tl, td, bl, bd, lit, dist);
  }

  lemma NotOver(b: seq<nat>)
    requires Complete(b)
    ensures Limit(BlCount(b), BMAX) <= Pow2(BMAX)
  {
  }

  lemma CoversFixed()
    ensures LIT_VALUES.Covers(288) && DIST_VALUES.Covers(30)
  {
    CoversDynamic(286, 30);
  }

  // ---------------------------------------------------------------- dynamic blocks

  const LL_SIZE: nat := 286 + 30

  /** A list read from the stream agrees with what the stream means. */
  ghost predicate ListAgrees(l: Lens, r: Status, lens: seq<nat>, rest: Stream) {
    match r
    case Ok => l == Lens(lens, rest)
    case Halted => rest.left < HALT && (l.Lens? ==> l.rest.left < BMAX)
    case _ => l == BadLens
  }

  /** The bit-length-code lengths, in their storage order; the rest are zero. */
  method ReadTree(src: Source, ll: array<nat>, nb: nat) returns (r: Status)
    requires src.Valid() && ll.Length == LL_SIZE && nb <= 19 && ll[..19] == Repeat(0, 19)
    modifies src, ll
    ensures src.Valid() && forall k :: 0 <= k < 19 ==> ll[k] <= 7
    ensures src.Left() <= old(src.Left())
    ensures ListAgrees(TreeLens(0, nb, old(Rest(src)), Repeat(0, 19)), r, ll[..19], Rest(src))
  {
    hide TreeLens, Shr, Low, Number, Shl, Repeat;
    ghost var all := TreeLens(0, nb, Rest(src), Repeat(0, 19));
    assert forall k :: 0 <= k < 19 ==> ll[k] <= 7 by { AllZeros(ll[..19]); }
    var j := 0;
    while j < 19
      invariant j <= 19 && src.Valid() && all == TreeLens(j, nb, Rest(src), ll[..19])
      invariant src.Left() <= old(src.Left())
      invariant forall k :: 0 <= k < 19 ==> ll[k] <= 7
    {
      TreeStep(j, nb, Rest(src), ll[..19]);
      var x := 0;
      if j < nb {
        ghost var v := src.Stream();
        var ok;
        ok, x := src.Get(3);
        if !ok {
          return Halted;
        }
        ThreeBits(v);
      }
      OrderFits(j);
      ghost var was := ll[..19];
      ll[ORDER[j]] := x;
      assert ll[..19] == was[ORDER[j] := x];
      j := j + 1;
    }
    TreeDone(nb, Rest(src), ll[..19]);
    r := Ok;
  }

  lemma AllZeros(s: seq<nat>)
    requires |s| == 19 && s == Repeat(0, 19)
    ensures forall k :: 0 <= k < 19 ==> s[k] == 0
  {
  }

  lemma ThreeBits(v: nat)
    ensures Low(v, 3) <= 7
  {
    assert Pow2(3) == 8;
  }

  lemma OrderFits(j: nat)
    requires j < 19
    ensures ORDER[j] < 19
  {
  }

  lemma TreeOutcome(s: nat, k: nat)
    requires s < 19 && TREE_VALUES.Covers(s + 1)
    ensures SymbolOutcome(TREE_VALUES, s, k) == Symbol(16, s, k)
  {
  }

  /** One code length code, looked up in a table of one level. */
  method ReadTreeCode(src: Source, tl: seq<seq<Huft>>, bl: nat, ghost tree: seq<nat>) returns (r: Status, j: nat)
    requires src.Valid() && Decoder(tl, bl, tree, TREE_VALUES) && NoLinks(tl) && |tree| == 19
    modifies src
    ensures src.Valid()
    ensures src.Left() <= old(src.Left())
    ensures var h := HeadOf(tree, old(src.Stream()));
            match r
            case Ok => h.Some? && j == h.value && 1 <= tree[j] <= old(src.Left())
              && Rest(src) == old(Rest(src)).Drop(tree[j])
            case Halted => src.Left() < HALT && (h.Some? ==> old(src.Left()) < tree[h.value] + BMAX)
            case _ => h.None?
  {
    hide Shr, Low, Rev, CodeOf, Number, Shl, Pow2;
    j := 0;
    ghost var v := src.Stream();
    DecoderFinds(tl, bl, tree, TREE_VALUES, v);
    ghost var h := HeadOf(tree, v);
    if h.Some? { TreeOutcome(h.value, tree[h.value]); }
    if |tl| == 0 {
      return Astray, 0;
    }
    var ok := src.Need(bl);
    if !ok {
      return Halted, 0;
    }
    var i := src.Peek(bl);
    LowFits(v, bl);
    assert Serves(tl, 0, bl);
    assert i < |tl[0]| && BitsFit(tl[0][i], bl);
    var ent := tl[0][i];
    if !ent.Entry? || ent.e == 99 {
      return Astray, 0;
    }
    src.Dump(ent.b);
    return Ok, ent.n;
  }

  /** Write a run of `count` equal lengths. */
  method FillRun(ll: array<nat>, i: nat, x: nat, count: nat)
    requires i + count <= ll.Length
    modifies ll
    ensures ll[..i + count] == old(ll[..i]) + Repeat(x, count)
  {
    for j := 0 to count
      invariant ll[..i] == old(ll[..i]) && forall k :: i <= k < i + j ==> ll[k] == x
    {
      ll[i + j] := x;
    }
  }

  /** A run of equal lengths: extra bits, bounds check, fill. */
  method ReadRun(src: Source, ll: array<nat>, i: nat, n: nat, j: nat, last: nat, ghost tree: seq<nat>)
    returns (r: Status, i': nat, last': nat)
    requires src.Valid() && |tree| == 19 && i < n <= ll.Length && 16 <= j <= 18
    modifies src, ll
    ensures src.Valid()
    ensures src.Left() <= old(src.Left())
    ensures var all := RunStep(tree, n, old(Rest(src)), old(ll[..i]), last, j);
            match r
            case Ok => i < i' <= n && all == CodeLens(tree, n, Rest(src), ll[..i'], last')
                       && last' == (if j == 16 then last else 0)
                       && ll[..i] == old(ll[..i]) && (forall k :: i <= k < i' ==> ll[k] == last')
            case Halted => src.Left() < HALT && all == ShortLens
            case _ => all == BadLens
  {
    hide Shr, Low, CodeLens, Number, Shl, Pow2;
    i', last' := i, last;
    var bits := if j == 16 then 2 else if j == 17 then 3 else 7;
    var ok, x := src.Get(bits);
    if !ok {
      return Halted, i, last;
    }
    var count := (if j == 18 then 11 else 3) + x;
    if i + count > n {
      return Error, i, last;
    }
    last' := if j == 16 then last else 0;
    FillRun(ll, i, last', count);
    i' := i + count;
    assert ll[..i] == ll[..i'][..i];
    r := Ok;
  }

  /** The literal and distance code lengths. */
  method ReadLens(src: Source, ll: array<nat>, n: nat, tl: seq<seq<Huft>>, bl: nat, ghost tree: seq<nat>)
    returns (r: Status)
    requires src.Valid() && Decoder(tl, bl, tree, TREE_VALUES) && NoLinks(tl) && |tree| == 19 && n <= ll.Length
    modifies src, ll
    ensures src.Valid()
    ensures src.Left() <= old(src.Left())
    ensures ListAgrees(CodeLens(tree, n, old(Rest(src)), [], 0), r, ll[..n], Rest(src))
    ensures r == Ok ==> forall k :: 0 <= k < n ==> ll[k] <= 15
  {
    hide CodeLens, RunStep, Shr, Decoder, NoLinks, Number, Shl, Rev, CodeOf;
    ghost var all := CodeLens(tree, n, Rest(src), [], 0);
    var i, last := 0, 0;
    assert ll[..0] == [];
    while i < n
      invariant i <= n && last <= 15 && src.Valid() && all == CodeLens(tree, n, Rest(src), ll[..i], last)
      invariant src.Left() <= old(src.Left())
      invariant forall k :: 0 <= k < i ==> ll[k] <= 15
      decreases n - i
    {
      LensStop(tree, n, Rest(src), ll[..i], last);
      ghost var st := Rest(src);
      var j;
      r, j := ReadTreeCode(src, tl, bl, tree);
      if r != Ok {
        return;
      }
      LensStep(tree, n, st, ll[..i], last, j);
      if j < 16 {
        ghost var was := ll[..i];
        ll[i] := j;
        i, last := i + 1, j;
        assert ll[..i] == was + [j];
      } else {
        r, i, last := ReadRun(src, ll, i, n, j, last, tree);
        if r != Ok {
          return;
        }
      }
    }
    LensStop(tree, n, Rest(src), ll[..i], last);
    r := Ok;
  }

  /** huft_build accepts a set of lengths exactly when the format does. */
  lemma AcceptedIs(b: seq<nat>, r: nat, g: nat)
    requires AllZero(b) ==> r == 0
    requires !AllZero(b) ==> (r == 2 <==> Limit(BlCount(b), BMAX) > Pow2(BMAX))
    requires !AllZero(b) && r != 2 ==> Longest(b, g) && r == if Complete(b) || g == 1 then 0 else 1
    ensures Accepted(b) <==> r == 0
  {
    hide Limit, Count, BlCount;
    if !AllZero(b) && r != 2 {
      assert (forall i :: 0 <= i < |b| ==> b[i] <= 1) <==> g == 1 by {
        var s := NthSymbol(b, g, 0);
      }
    }
  }

  /** Tables for an accepted set decode it: the base tables of the decompressor are wide enough. */
  lemma AcceptedDecoder(b: seq<nat>, vals: Values, m0: nat, tables: seq<seq<Huft>>, m: nat, g: nat)
    requires vals.Covers(|b|) && Accepted(b) && 1 <= |b| <= N_MAX
    requires AllZero(b) ==> tables == [] && m == 0
    requires !AllZero(b) ==> Longest(b, g) && 1 <= m <= g && (m == g || m0 <= m) && GoodTables(b, vals, g, tables, m)
    requires (forall i :: 0 <= i < |b| ==> b[i] <= 2 * m0) || (|b| < Pow2(m0) && m0 >= 1)
    ensures Decoder(tables, m, b, vals)
    ensures m == g || AllZero(b) ==> NoLinks(tables)
  {
    hide Limit, Walk, Rev, CodeOf, Count, BlCount, GoodTables;
    if AllZero(b) {
      EmptyDecoder(b, vals);
    } else {
      GoodLinks(b, vals, g, tables, m);
      if m == g || g <= 2 * m {
        FitsWhenShallow(b, g, m);
      } else if g <= 2 * m0 {
        FitsWhenShallow(b, g, m);
      } else {
        var s := NthSymbol(b, g, 0);
        assert |b| < Pow2(m0) && b[s] == g && Complete(b);
        Pow2Mono(m0, m);
        CompleteAt(b, g);
        FitsWhenFew(b, g, m);
      }
      GoodDecoder(b, vals, g, tables, m);
    }
  }

  lemma GoodLinks(b: seq<nat>, vals: Values, g: nat, tables: seq<seq<Huft>>, m: nat)
    requires vals.Covers(|b|) && g <= BMAX && GoodTables(b, vals, g, tables, m)
    ensures m == g ==> NoLinks(tables)
  {
    hide LookupFits, DecodesAs, RejectsRest, NoLinks, Walk, Complete;
  }

  lemma CompleteAt(b: seq<nat>, g: nat)
    requires Complete(b) && Longest(b, g)
    ensures Limit(BlCount(b), g) == Pow2(g)
  {
    hide Limit, Complete;
    forall k: nat | g < k <= BMAX ensures BlCount(b)[k] == 0 {
      if Count(b, k) > 0 { var s := NthSymbol(b, k, 0); }
    }
    CompleteIs(b, g);
  }

  lemma EmptyDecoder(b: seq<nat>, vals: Values)
    requires AllZero(b) && vals.Covers(|b|)
    ensures Decoder([], 0, b, vals) && NoLinks([])
  {
    hide Rev, CodeOf;
  }

  /** The three counts that open a dynamic block. */
  method ReadCounts(src: Source) returns (ok: bool, nl: nat, nd: nat, nb: nat)
    requires src.Valid()
    modifies src
    ensures src.Valid() && (ok <==> old(src.Left()) >= 14)
    ensures src.Left() <= old(src.Left()) && (!ok ==> src.Left() < HALT)
    ensures ok ==>
              && nl == 257 + Low(old(src.Stream()), 5) && nd == 1 + Low(Shr(old(src.Stream()), 5), 5)
              && nb == 4 + Low(Shr(old(src.Stream()), 10), 4) && nb <= 19 && Rest(src) == old(Rest(src)).Drop(14)
  {
    hide Shr, Low, Number, Shl;
    nl, nd, nb := 0, 0, 0;
    ghost var v := src.Stream();
    ShrShr(v, 5, 5);
    ShrShr(v, 10, 4);
    var x;
    ok, x := src.Get(5);
    nl := 257 + x;
    if ok {
      ok, x := src.Get(5);
      nd := 1 + x;
      if ok {
        ok, x := src.Get(4);
        nb := 4 + x;
        FourBits(Shr(v, 10));
      }
    }
  }

  lemma FourBits(v: nat)
    ensures Low(v, 4) <= 15
  {
    assert Pow2(4) == 16;
  }

  /** Build both tables of a dynamic block and decode it. */
  method DecodeWith(src: Source, win: Slide, ll: array<nat>, nl: nat, nd: nat) returns (r: Status)
    requires src.Valid() && win.Valid() && 1 <= nl <= 286 && 1 <= nd <= 30 && ll.Length == LL_SIZE
    requires forall k :: 0 <= k < nl + nd ==> ll[k] <= 15
    modifies src, win.Repr()
    ensures src.Valid() && win.Valid()
    ensures src.Left() <= old(src.Left())
    ensures Agrees(TablesEnd(old(ll[..nl + nd]), nl, old(Rest(src)), old(win.Out()), false), r, win.Out(), Rest(src))
  {
    hide Ring, Register, IsTable, CodesEnd, GoodTables, Decoder, Accepted, Complete, Limit, AllZero, Longest, Pow2;
    var lit, dist := ll[..nl], ll[nl..nl + nd];
    assert ll[..nl + nd][..nl] == lit && ll[..nl + nd][nl..] == dist;
    CoversDynamic(nl, nd);
    var i, tl, bl, td, bd;
    ghost var g;
    i, tl, bl, g := Build(lit, LIT_VALUES, 9);
    AcceptedIs(lit, i, g);
    if i != 0 {
      return Error;
    }
    AcceptedDecoder(lit, LIT_VALUES, 9, tl, bl, g);
    i, td, bd, g := Build(dist, DIST_VALUES, 6);
    AcceptedIs(dist, i, g);
    if i != 0 {
      return Error;
    }
    assert Pow2(6) == 64 by { SixBits(); }
    AcceptedDecoder(dist, DIST_VALUES, 6, td, bd, g);
    r := InflateCodes(src, win, tl, td, bl, bd, lit, dist);
  }

  lemma SixBits()
    ensures Pow2(6) == 64
  {
    assert Pow2(3) == 8;
  }

  lemma CoversDynamic(nl: nat, nd: nat)
    requires nl <= 286 && nd <= 30
    ensures LIT_VALUES.Covers(nl) && DIST_VALUES.Covers(nd)
  {
    forall j: nat | j < 31 ensures LENGTH_EXTRA[j] <= 16 || LENGTH_EXTRA[j] == 99 { LengthExtra(j); }
    forall j: nat | j < 30 ensures DISTANCE_EXTRA[j] <= 16 { DistanceExtra(j); }
  }

  /** The code lengths of a dynamic block, then the block. */
  method DecodeLens(src: Source, win: Slide, ll: array<nat>, nl: nat, nd: nat) returns (r: Status)
    requires src.Valid() && win.Valid() && 1 <= nl <= 286 && 1 <= nd <= 30 && ll.Length == LL_SIZE
    requires forall k :: 0 <= k < 19 ==> ll[k] <= 7
    requires (ll as object) != (win.slide as object) && (ll as object) != (win.sum.tab as object)
    modifies src, win.Repr(), ll
    ensures src.Valid() && win.Valid()
    ensures src.Left() <= old(src.Left())
    ensures Agrees(LensEnd(old(ll[..19]), nl, nd, old(Rest(src)), old(win.Out()), false), r, win.Out(), Rest(src))
  {
    hide Ring, Register, IsTable, GoodTables, Decoder, Accepted, CodeLens, TablesEnd, Complete, Limit, AllZero,
    Longest, NoLinks, Number, Shl, HeadOf, Sane, Walk, Rev, CodeOf, Shr, Low, CountsEnd, CodesEnd;
    var tree := ll[..19];
    assert TREE_VALUES.Covers(19);
    var i, tl, bl;
    ghost var g;
    i, tl, bl, g := Build(tree, TREE_VALUES, 7);
    AcceptedIs(tree, i, g);
    if i != 0 {
      return Error;
    }
    AcceptedDecoder(tree, TREE_VALUES, 7, tl, bl, g);
    SevenBits(tree, bl, g);
    r := ReadLens(src, ll, nl + nd, tl, bl, tree);
    if r != Ok {
      return;
    }
    r := DecodeWith(src, win, ll, nl, nd);
  }

  /** Code length codes have at most seven bits, so one lookup of seven decodes them. */
  lemma SevenBits(tree: seq<nat>, m: nat, g: nat)
    requires forall k :: 0 <= k < |tree| ==> tree[k] <= 7
    requires !AllZero(tree) ==> Longest(tree, g) && (m == g || 7 <= m) && m <= g
    ensures m == g || AllZero(tree)
  {
    if !AllZero(tree) { var s := NthSymbol(tree, g, 0); }
  }

  /** inflate_dynamic. */
  method InflateDynamic(src: Source, win: Slide) returns (r: Status)
    requires src.Valid() && win.Valid()
    modifies src, win.Repr()
    ensures src.Valid() && win.Valid()
    ensures src.Left() <= old(src.Left())
    ensures Agrees(DynamicEnd(old(Rest(src)), old(win.Out()), false), r, win.Out(), Rest(src))
  {
    hide Ring, Register, IsTable, TreeLens, LensEnd, Shr, Low, Repeat, Number, Shl;
    var ok, nl, nd, nb := ReadCounts(src);
    if !ok {
      return Halted;
    }
    if nl > 286 || nd > 30 {
      return Error;
    }
    var ll := new nat[LL_SIZE](_ => 0);
    assert ll[..19] == Repeat(0, 19) by { ZeroRun(ll[..19]); }
    r := ReadTree(src, ll, nb);
    if r != Ok {
      return;
    }
    r := DecodeLens(src, win, ll, nl, nd);
  }

  lemma ZeroRun(s: seq<nat>)
    requires |s| == 19 && forall k :: 0 <= k < 19 ==> s[k] == 0
    ensures s == Repeat(0, 19)
  {
  }

  // ---------------------------------------------------------------- the whole stream

  /** The last-block flag and the block type. */
  method ReadBlockHeader(src: Source) returns (ok: bool, last: bool, t: nat)
    requires src.Valid()
    modifies src
    ensures src.Valid() && (ok <==> old(src.Left()) >= 3) && src.Left() <= old(src.Left())
    ensures ok ==>
      var st := old(Rest(src)); Rest(src) == st.Drop(3) && last == (Low(st.v, 1) == 1) && t == Low(Shr(st.v, 1), 2)
  {
    hide Shr, Low, Number, Shl;
    ShrShr(src.Stream(), 1, 2);
    var e;
    last, t := false, 0;
    ok, e := src.Get(1);
    if ok {
      last := e == 1;
      ok, t := src.Get(2);
    }
  }

  /** inflate_block. */
  method InflateBlock(src: Source, win: Slide) returns (r: Status, last: bool)
    requires src.Valid() && win.Valid()
    modifies src, win.Repr()
    ensures src.Valid() && win.Valid()
    ensures src.Left() <= old(src.Left()) && (r == Ok ==> src.Left() < old(src.Left()))
    ensures var st := old(Rest(src));
            if st.left < 3 then r == Halted && src.Left() < HALT
            else
              && Agrees(BlockEnd(Low(Shr(st.v, 1), 2), st.Drop(3), old(win.Out()), false), r, win.Out(), Rest(src))
              && last == (Low(st.v, 1) == 1)
  {
    hide Ring, Register, IsTable, StoredEnd, DynamicEnd, CodesEnd, Shr, Low, Number, Shl;
    var ok, t;
    ok, last, t := ReadBlockHeader(src);
    if !ok {
      return Halted, last;
    }
    if t == 2 {
      r := InflateDynamic(src, win);
    } else if t == 0 {
      r := InflateStored(src, win);
    } else if t == 1 {
      r := InflateFixed(src, win);
    } else {
      r := Error;
    }
  }

  /** The blocks of a stream, up to the one marked last. */
  method InflateBlocks(src: Source, win: Slide) returns (r: Status)
    requires src.Valid() && win.Valid()
    modifies src, win.Repr()
    ensures src.Valid() && win.Valid()
    ensures src.Left() <= old(src.Left())
    ensures Agrees(StreamEnd(old(Rest(src)), old(win.Out()), false), r, win.Out(), Rest(src))
  {
    hide Ring, Register, IsTable, BlockEnd, Shr, Low, Number, Shl;
    ghost var end := StreamEnd(Rest(src), win.Out(), false);
    var last := false;
    r := Ok;
    while !last
      invariant src.Valid() && win.Valid()
      invariant src.Left() <= old(src.Left())
      invariant if last then Agrees(end, r, win.Out(), Rest(src))
                else r == Ok && end == StreamEnd(Rest(src), win.Out(), false)
      decreases !last, src.Left()
    {
      r, last := InflateBlock(src, win);
      if r != Ok {
        return;
      }
    }
  }

  /** inflate: decode the stream, give back whole bytes read ahead, and flush the window. */
  method InflateStream(src: Source, win: Slide) returns (r: Status)
    requires src.Valid() && win.Valid()
    modifies src, win.Repr()
    ensures var end := StreamEnd(old(Rest(src)), old(win.Out()), false);
            match r
            case Ok => end.Done? && win.output == end.out && src.bk < 8 && src.inptr == |src.input| - end.rest.left / 8
            case Halted => src.inptr <= |src.input| && src.Left() < HALT && (end.Done? ==> end.rest.left < BMAX)
            case _ => end == Invalid
    ensures var format := StreamEnd(old(Rest(src)), old(win.Out()), true);
            r == Ok ==> (format.Done? && format.out == win.output <==> format != TooFar)
    ensures r == Ok ==> win.sum.Valid() && win.sum.crc == Register(START, win.output)
  {
    hide Ring, Register, IsTable, StreamEnd, Shr, Number, Shl;
    StreamAgree(Rest(src), win.Out());
    r := InflateBlocks(src, win);
    if r != Ok {
      return;
    }
    GiveBack(src);
    win.Finish();
  }

  /** Undo too much lookahead: whole bytes still in the bit buffer go back to the input. */
  method GiveBack(src: Source)
    requires src.Valid() && src.inptr >= src.bk / 8
    modifies src
    ensures src.bk < 8 && src.inptr <= |src.input| && src.Left() == old(src.Left())
  {
    while src.bk >= 8
      invariant src.inptr <= |src.input| && src.Left() == old(src.Left()) && src.inptr >= src.bk / 8
      decreases src.bk
    {
      src.bk := src.bk - 8;
      src.inptr := src.inptr - 1;
    }
  }

  /** unzip on a gzip member whose header has been read: decompress, then check the stored CRC and
      length. Every failure halts the original. */
  method Unzip(input: seq<byte>) returns (ok: bool, output: seq<byte>)
    ensures var end := StreamEnd(Stream(Number(input), 8 * |input|), [], false);
            ok <==> end.Done? && end.rest.left <= 8 * |input| && Trailer(input, |input| - end.rest.left / 8, end.out)
    ensures var end := StreamEnd(Stream(Number(input), 8 * |input|), [], false);
            ok ==> end.Done? && output == end.out
    ensures var format := StreamEnd(Stream(Number(input), 8 * |input|), [], true);
            ok ==> (format.Done? && format.out == output <==> format != TooFar)
  {
    hide StreamEnd, Register, IsTable, Number, Shl, Word;
    var src := new Source(input);
    var win := new Slide();
    FeedNothing(START);
    var crc := win.sum.Reset();
    output := [];
    var r := InflateStream(src, win);
    if r != Ok || src.inptr + 8 > |input| {
      return false, [];
    }
    output := win.output;
    crc := win.sum.Update([]);
    var p := src.inptr;
    ok := Word(Number(input[p..p + 4]), 32) == crc && Number(input[p + 4..p + 8]) == |output| % 0x1_0000_0000;
    assert Register(Register(START, output), []) == Register(START, output) by { FeedNothing(Register(START, output)); }
  }

  lemma FeedNothing(c: bv32)
    ensures Register(c, []) == c
  {
  }

  /** The eight bytes after the compressed data are the CRC and the length of the output. */
  ghost predicate Trailer(input: seq<byte>, p: nat, output: seq<byte>) {
    && p + 8 <= |input|
    && Word(Number(input[p..p + 4]), 32) == Crc32(output)
    && Number(input[p + 4..p + 8]) == |output| % 0x1_0000_0000
  }

  // ---------------------------------------------------------------- a distance beyond the output

  lemma HeadIs(lens: seq<nat>, s: nat, v: nat)
    requires Heads(lens, s, v)
    ensures HeadOf(lens, v) == Some(s)
  {
    HeadsUnique(lens, s, HeadOf(lens, v).value, v);
  }

  lemma {:induction false} NoBits(n: nat)
    ensures Rev(0, n) == 0 && Shr(0, n) == 0 && Low(0, n) == 0
  {
    if n > 0 { NoBits(n - 1); }
  }

  lemma FixedPlaces()
    ensures |FixedLit()| == 288 && FixedLit()[256] == 7 && FixedLit()[257] == 7
    ensures Count(FixedLit()[..256], 7) == 0 && Count(FixedLit()[..257], 7) == 1
  {
    var lit := FixedLit();
    assert lit[..256] == Repeat(8, 144) + Repeat(9, 112);
    assert lit[..257] == lit[..256] + Repeat(7, 1);
    hide FixedLit, Repeat, Count;
    CountConcat(Repeat(8, 144), Repeat(9, 112), 7);
    CountRepeat(8, 144, 7);
    CountRepeat(9, 112, 7);
    CountConcat(lit[..256], Repeat(7, 1), 7);
    CountRepeat(7, 1, 7);
  }

  /** In the fixed codes seven zero bits end the block, and six followed by a one are a match of length three. */
  lemma FixedHeads()
    ensures HeadOf(FixedLit(), 0) == Some(256) && FixedLit()[256] == 7
    ensures HeadOf(FixedLit(), 64) == Some(257) && FixedLit()[257] == 7
  {
    FixedPlaces();
    hide FixedLit, FixedDist, Repeat, Count, NextCode, Rev, Shr, BlCount;
    FixedStarts();
    NoBits(7);
    SixtyFour();
    HeadIs(FixedLit(), 256, 0);
    HeadIs(FixedLit(), 257, 64);
  }

  lemma FixedDistHead()
    ensures HeadOf(FixedDist(), 0) == Some(0) && FixedDist()[0] == 5
  {
    var dist := FixedDist();
    assert |dist| == 30 && dist[0] == 5 && dist[..0] == [];
    hide FixedDist, Repeat, Count, NextCode, Rev;
    FixedStarts();
    NoBits(5);
    NoneCounted(5);
    HeadIs(dist, 0, 0);
  }

  lemma NoneCounted(k: nat)
    ensures Count([], k) == 0
  {
  }

  lemma FixedStarts()
    ensures NextCode(BlCount(FixedLit()), 7) == 0 && NextCode(BlCount(FixedDist()), 5) == 0
  {
    hide FixedLit, FixedDist, Count;
    forall k: nat | k <= BMAX ensures BlCount(FixedLit())[k] == 0 || k in {7, 8, 9} { FixedCounts(k); }
    forall k: nat | k <= BMAX ensures BlCount(FixedDist())[k] == (if k == 5 then 30 else 0) { FixedDistCounts(k); }
    NothingShorter(BlCount(FixedLit()), 7);
    NothingShorter(BlCount(FixedDist()), 5);
  }

  lemma FixedDistCounts(k: nat)
    ensures Count(FixedDist(), k) == if k == 5 then 30 else 0
  {
    CountRepeat(5, 30, k);
  }

  lemma SixtyFour()
    ensures Rev(64, 7) == 1 && Shr(64, 7) == 0
  {
    assert Shr(64, 0) == 64 && Shr(64, 1) == 32 && Shr(64, 2) == 16 && Shr(64, 3) == 8;
    assert Shr(64, 4) == Shr(32, 3) && Shr(32, 3) == 4;
    assert Shr(64, 5) == Shr(16, 3) && Shr(16, 3) == 2;
    assert Shr(64, 6) == Shr(8, 3) && Shr(8, 3) == 1;
    assert Shr(64, 7) == Shr(8, 4) && Shr(8, 4) == 0;
    assert Rev(64, 3) == 0 && Rev(64, 6) == 0;
  }

  lemma FiveOneFive()
    ensures Number([3, 2, 0]) == 515 && Shr(515, 3) == 64 && Low(Shr(515, 1), 2) == 1 && Low(515, 1) == 1
  {
    assert [3, 2, 0][1..] == [2, 0] && [2, 0][1..] == [0] && [0][1..] == [];
    assert Shl(0, 8) == 0 by { NoShift(8); }
    assert Number([0]) == 0 && Number([2, 0]) == 2;
    assert Shl(2, 4) == 32 && Shl(2, 8) == 512;
    assert Shr(515, 1) == 257 && Shr(515, 2) == 128;
  }

  lemma {:induction false} NoShift(n: nat)
    ensures Shl(0, n) == 0
  {
    if n > 0 { NoShift(n - 1); }
  }

  lemma FirstCodes()
    ensures LENGTHS[0] == 3 && LENGTH_EXTRA[0] == 0 && DISTANCES[0] == 1 && DISTANCE_EXTRA[0] == 0
  {
  }

  lemma DistanceCase(dist: seq<nat>, n: nat, st: Stream, d: nat)
    requires |dist| <= 30 && HeadOf(dist, st.v) == Some(d) && dist[d] <= st.left && DISTANCE_EXTRA[d] == 0
    ensures DistanceAt(dist, n, st) == Match(n, DISTANCES[d], st.Drop(dist[d]))
  {
    hide HeadOf, CodeOf, Rev;
    NoneDropped(st.Drop(dist[d]));
  }

  lemma NoneDropped(st: Stream)
    ensures st.Drop(0) == st && Low(st.v, 0) == 0
  {
  }

  lemma FirstDistance()
    ensures |FixedDist()| == 30 && DistanceAt(FixedDist(), 3, Stream(0, 14)) == Match(3, 1, Stream(0, 9))
  {
    FixedDistHead();
    FixedDistBound();
    NoBits(5);
    FirstCodes();
    assert Stream(0, 14).Drop(5) == Stream(0, 9);
    hide FixedDist, HeadOf, DistanceAt, Shr;
    DistanceCase(FixedDist(), 3, Stream(0, 14), 0);
  }

  lemma FirstMatch()
    ensures |FixedDist()| == 30 && MatchAfter(FixedDist(), 257, Stream(0, 14)) == Match(3, 1, Stream(0, 9))
  {
    FirstCodes();
    FirstDistance();
    NoBits(0);
    hide FixedDist, DistanceAt, Shr, Low, LENGTHS, LENGTH_EXTRA;
    assert Stream(0, 14).Drop(0) == Stream(0, 14);
  }

  lemma ThreeZeros()
    ensures LzCopy([], 1, 3) == [0, 0, 0]
  {
  }

  lemma SevenDropped()
    ensures Stream(64, 21).Drop(7) == Stream(0, 14) && Stream(0, 9).Drop(7) == Stream(0, 2)
  {
    SixtyFour();
    NoBits(7);
  }

  /** A match of length 3, one byte back, and the end of the block. */
  lemma MatchThenEnd()
    ensures CodesEnd(FixedLit(), FixedDist(), Stream(64, 21), [], true) == TooFar
    ensures CodesEnd(FixedLit(), FixedDist(), Stream(64, 21), [], false) == Done([0, 0, 0], Stream(0, 2))
  {
    var st := Stream(64, 21);
    FixedHeads();
    FirstMatch();
    ThreeZeros();
    SevenDropped();
    hide FixedLit, FixedDist, Repeat, Shr, Low, Rev, CodeOf, LzCopy, CodesEnd, HeadOf, MatchAfter, Stream.Drop;
    MatchStep(FixedLit(), FixedDist(), st, [], 257, true);
    MatchStep(FixedLit(), FixedDist(), st, [], 257, false);
    LastStep(FixedLit(), FixedDist(), Stream(0, 9), [0, 0, 0], false);
  }

  /** The three bytes 3, 2, 0: a last block in the fixed codes that opens with a match. The format has no such stream;
      the decompressor makes three zeros of it. */
  lemma OpensWithMatch()
    ensures Number([3, 2, 0]) == 515
    ensures StreamEnd(Stream(515, 24), [], true) == TooFar
    ensures StreamEnd(Stream(515, 24), [], false) == Done([0, 0, 0], Stream(0, 2))
  {
    FiveOneFive();
    MatchThenEnd();
    hide FixedLit, FixedDist, Shr, Low, CodesEnd, Number;
  }
}
