/** What a DEFLATE stream means, after RFC 1951. */
module Deflate {
  import opened Basics
  import opened Bits
  import opened Canonical
  import opened Window

  /** Bits still to be read, the next one lowest, and how many there are. */
  datatype Stream = Stream(v: nat, left: nat)
  {
    function Drop(n: nat): Stream
      requires n <= left
    {
      Stream(Shr(v, n), left - n)
    }
  }

  // The tables of section 3.2.5: lengths of codes 257..285 and distances of codes 0..29, each with
  // its number of extra bits; codes 286 and 287 are never used.
  const LENGTHS: seq<nat> := [3, 4, 5, 6, 7, 8, 9, 10, 11, 13, 15, 17, 19, 23, 27, 31, 35, 43, 51, 59, 67, 83, 99,
                              115, 131, 163, 195, 227, 258, 0, 0]
  const LENGTH_EXTRA: seq<nat> := [0, 0, 0, 0, 0, 0, 0, 0, 1, 1, 1, 1, 2, 2, 2, 2, 3, 3, 3, 3, 4, 4, 4, 4, 5, 5, 5, 5,
                                   0, 99, 99]
  const DISTANCES: seq<nat> := [1, 2, 3, 4, 5, 7, 9, 13, 17, 25, 33, 49, 65, 97, 129, 193, 257, 385, 513, 769, 1025,
                                1537, 2049, 3073, 4097, 6145, 8193, 12289, 16385, 24577]
  const DISTANCE_EXTRA: seq<nat> := [0, 0, 0, 0, 1, 1, 2, 2, 3, 3, 4, 4, 5, 5, 6, 6, 7, 7, 8, 8, 9, 9, 10, 10, 11, 11,
                                     12, 12, 13, 13]
  // Order in which the lengths of the code length codes are stored, section 3.2.7.
  const ORDER: seq<nat> := [16, 17, 18, 0, 8, 7, 9, 6, 10, 5, 11, 4, 12, 3, 13, 2, 14, 1, 15]

  const END_OF_BLOCK: nat := 256
  const LAST_LENGTH: nat := 285

  /** The symbol at the head of a stream, if there is one. */
  ghost function HeadOf(lens: seq<nat>, v: nat): (r: Option<nat>)
    ensures r.Some? ==> Heads(lens, r.value, v)
    ensures r.None? ==> forall s: nat :: !Heads(lens, s, v)
  {
    if s: nat :| Heads(lens, s, v) then Some(s) else None
  }

  /** How reading ends: decoded output and remaining bits; a violation of the format; a distance
      beyond the start of the output; or too few bits. */
  datatype End = Done(out: seq<byte>, rest: Stream) | Invalid | TooFar | Short

  /** A length and a distance, or why there is none. */
  datatype Match = Match(len: nat, dist: nat, rest: Stream) | BadMatch | ShortMatch

  lemma LengthBase(j: nat)
    requires j < 29
    ensures LENGTHS[j] >= 3
  {
  }

  lemma DistanceBase(j: nat)
    requires j < 30
    ensures DISTANCES[j] >= 1
  {
  }

  /** A distance code with its extra bits. */
  ghost function DistanceAt(dist: seq<nat>, n: nat, st: Stream): (r: Match)
    requires |dist| <= 30
    ensures r.Match? ==> r.rest.left <= st.left && r.len == n && 1 <= r.dist
  {
    match HeadOf(dist, st.v)
    case None => BadMatch
    case Some(d) =>
      if st.left < dist[d] then ShortMatch else
      var st1 := st.Drop(dist[d]);
      if st1.left < DISTANCE_EXTRA[d] then ShortMatch else
      DistanceBase(d);
      Match(n, DISTANCES[d] + Low(st1.v, DISTANCE_EXTRA[d]), st1.Drop(DISTANCE_EXTRA[d]))
  }

  /** The rest of a match whose length code is `s`: extra bits, then the distance. */
  ghost function MatchAfter(dist: seq<nat>, s: nat, st: Stream): (r: Match)
    requires END_OF_BLOCK < s <= LAST_LENGTH && |dist| <= 30
    ensures r.Match? ==> r.rest.left <= st.left && 3 <= r.len && 1 <= r.dist
  {
    var e := LENGTH_EXTRA[s - 257];
    LengthBase(s - 257);
    if st.left < e then ShortMatch
    else DistanceAt(dist, LENGTHS[s - 257] + Low(st.v, e), st.Drop(e))
  }

  /** A block of literals and matches up to its end code, section 3.2.3. The format, `strict`, has no distance beyond
      the start of the output; the decompressor takes one to lead to zeros. */
  ghost function CodesEnd(lit: seq<nat>, dist: seq<nat>, st: Stream, out: seq<byte>, strict: bool): (r: End)
    requires |dist| <= 30
    ensures r.Done? ==> r.rest.left <= st.left
    decreases st.left
  {
    match HeadOf(lit, st.v)
    case None => Invalid
    case Some(s) =>
      if s > LAST_LENGTH then Invalid
      else if st.left < lit[s] then Short
      else
        var st1 := st.Drop(lit[s]);
        if s < END_OF_BLOCK then CodesEnd(lit, dist, st1, out + [s], strict)
        else if s == END_OF_BLOCK then Done(out, st1)
        else
          match MatchAfter(dist, s, st1)
          case BadMatch => Invalid
          case ShortMatch => Short
          case Match(n, d, st2) =>
            if strict && d > |out| then TooFar else CodesEnd(lit, dist, st2, LzCopy(out, d, n), strict)
  }

  lemma LiteralStep(lit: seq<nat>, dist: seq<nat>, st: Stream, out: seq<byte>, s: nat, strict: bool)
    requires |dist| <= 30 && HeadOf(lit, st.v) == Some(s) && s < END_OF_BLOCK && lit[s] <= st.left
    ensures CodesEnd(lit, dist, st, out, strict) == CodesEnd(lit, dist, st.Drop(lit[s]), out + [s], strict)
  {
    hide MatchAfter, LzCopy, Rev, CodeOf, Shr;
  }

  lemma MatchStep(lit: seq<nat>, dist: seq<nat>, st: Stream, out: seq<byte>, s: nat, strict: bool)
    requires |dist| <= 30 && HeadOf(lit, st.v) == Some(s) && END_OF_BLOCK < s <= LAST_LENGTH && lit[s] <= st.left
    ensures var m := MatchAfter(dist, s, st.Drop(lit[s]));
            CodesEnd(lit, dist, st, out, strict) ==
            if m.BadMatch? then Invalid
            else if m.ShortMatch? then Short
            else if strict && m.dist > |out| then TooFar
            else CodesEnd(lit, dist, m.rest, LzCopy(out, m.dist, m.len), strict)
  {
    hide MatchAfter, LzCopy, Rev, CodeOf, Shr;
  }

  lemma LastStep(lit: seq<nat>, dist: seq<nat>, st: Stream, out: seq<byte>, strict: bool)
    requires |dist| <= 30
    ensures var h := HeadOf(lit, st.v);
            h.None? || h.value > LAST_LENGTH ==> CodesEnd(lit, dist, st, out, strict) == Invalid
    ensures var h := HeadOf(lit, st.v);
            h.Some? && h.value <= LAST_LENGTH ==>
              var r := CodesEnd(lit, dist, st, out, strict);
              && (st.left < lit[h.value] ==> r == Short)
              && (st.left >= lit[h.value] && h.value == END_OF_BLOCK ==> r == Done(out, st.Drop(lit[h.value])))
              && (r.Done? ==> r.rest.left <= st.left - lit[h.value])
  {
    hide MatchAfter, LzCopy, Rev, CodeOf, Shr;
  }

  /** No distance exceeds the window. */
  lemma DistanceFits(d: nat, e: nat)
    requires d < 30 && e < Pow2(DISTANCE_EXTRA[d])
    ensures DISTANCES[d] + e <= WSIZE
  {
    assert Pow2(0) == 1 && Pow2(1) == 2 && Pow2(2) == 4 && Pow2(3) == 8;
    assert Pow2(4) == 16 && Pow2(5) == 32;
    assert Pow2(6) == 64 && Pow2(7) == 128;
    assert Pow2(8) == 256 && Pow2(9) == 512;
    assert Pow2(10) == 1024 && Pow2(11) == 2048;
    assert Pow2(12) == 4096 && Pow2(13) == 8192;
  }

  // ---------------------------------------------------------------- stored blocks

  /** `n` bytes copied to the output, section 3.2.4. */
  function StoredBytes(n: nat, st: Stream, out: seq<byte>): (r: End)
    ensures r.Done? ==> r.rest.left <= st.left
    decreases n
  {
    if n == 0 then Done(out, st)
    else if st.left < 8 then Short
    else StoredBytes(n - 1, st.Drop(8), out + [ByteAt(st.v)])
  }

  function ByteAt(v: nat): byte {
    assert Pow2(4) == 16;
    Low(v, 8)
  }

  function StoredEnd(st: Stream, out: seq<byte>): (r: End)
    ensures r.Done? ==> r.rest.left <= st.left
  {
    var st0 := st.Drop(st.left % 8);
    if st0.left < 32 then Short else
    var n := Low(st0.v, 16);
    var st1 := st0.Drop(16);
    if n + Low(st1.v, 16) != 0xffff then Invalid else StoredBytes(n, st1.Drop(16), out)
  }

  // ---------------------------------------------------------------- dynamic blocks

  /** A set of lengths a block may use: complete, without codes, or with one-bit codes only. */
  ghost predicate Accepted(lens: seq<nat>) {
    || (forall i :: 0 <= i < |lens| ==> lens[i] == 0)
    || Complete(lens)
    || (Limit(BlCount(lens), BMAX) < Pow2(BMAX) && forall i :: 0 <= i < |lens| ==> lens[i] <= 1)
  }

  /** A list of numbers read from the stream. */
  datatype Lens = Lens(lens: seq<nat>, rest: Stream) | BadLens | ShortLens

  /** The lengths of the code length codes: three bits for each of the first `nb` in storage order. */
  function TreeLens(j: nat, nb: nat, st: Stream, ll: seq<nat>): (r: Lens)
    requires |ll| == 19 && nb <= 19
    ensures r.Lens? ==> |r.lens| == 19 && r.rest.left <= st.left
    decreases 19 - j
  {
    if j >= 19 then Lens(ll, st)
    else if j >= nb then TreeLens(j + 1, nb, st, ll[ORDER[j] := 0])
    else if st.left < 3 then ShortLens
    else TreeLens(j + 1, nb, st.Drop(3), ll[ORDER[j] := Low(st.v, 3)])
  }

  lemma TreeStep(j: nat, nb: nat, st: Stream, ll: seq<nat>)
    requires |ll| == 19 && nb <= 19 && j < 19
    ensures TreeLens(j, nb, st, ll) ==
            if j >= nb then TreeLens(j + 1, nb, st, ll[ORDER[j] := 0])
            else if st.left < 3 then ShortLens
            else TreeLens(j + 1, nb, st.Drop(3), ll[ORDER[j] := Low(st.v, 3)])
  {
  }

  lemma TreeDone(nb: nat, st: Stream, ll: seq<nat>)
    requires |ll| == 19 && nb <= 19
    ensures TreeLens(19, nb, st, ll) == Lens(ll, st)
  {
  }

  function Repeat(x: nat, n: nat): (r: seq<nat>)
    ensures |r| == n
  {
    seq(n, _ => x)
  }

  /** Code lengths up to `n` of them, run length coded with codes 16 to 18; `last` is repeated by 16. */
  ghost function CodeLens(tree: seq<nat>, n: nat, st: Stream, ll: seq<nat>, last: nat): (r: Lens)
    requires |tree| == 19 && |ll| <= n
    ensures r.Lens? ==> |r.lens| == n && r.rest.left <= st.left
    decreases st.left
  {
    if |ll| == n then Lens(ll, st)
    else
      match HeadOf(tree, st.v)
      case None => BadLens
      case Some(j) =>
        if st.left < tree[j] then ShortLens else
        var st1 := st.Drop(tree[j]);
        if j < 16 then CodeLens(tree, n, st1, ll + [j], j)
        else
          var bits := if j == 16 then 2 else if j == 17 then 3 else 7;
          if st1.left < bits then ShortLens else
          var count := (if j == 18 then 11 else 3) + Low(st1.v, bits);
          var x := if j == 16 then last else 0;
          if |ll| + count > n then BadLens
          else CodeLens(tree, n, st1.Drop(bits), ll + Repeat(x, count), x)
  }

  /** The codes of a dynamic block, given their lengths. */
  ghost function TablesEnd(ll: seq<nat>, nl: nat, st: Stream, out: seq<byte>, strict: bool): (r: End)
    requires nl <= |ll| <= nl + 30
    ensures r.Done? ==> r.rest.left <= st.left
  {
    if !Accepted(ll[..nl]) || !Accepted(ll[nl..]) then Invalid
    else CodesEnd(ll[..nl], ll[nl..], st, out, strict)
  }

  /** The code lengths and codes of a dynamic block, given the lengths of the code length codes. */
  ghost function LensEnd(tree: seq<nat>, nl: nat, nd: nat, st: Stream, out: seq<byte>, strict: bool): (r: End)
    requires |tree| == 19 && nd <= 30
    ensures r.Done? ==> r.rest.left <= st.left
  {
    if !Accepted(tree) then Invalid else
    match CodeLens(tree, nl + nd, st, [], 0)
    case BadLens => Invalid
    case ShortLens => Short
    case Lens(ll, st1) => TablesEnd(ll, nl, st1, out, strict)
  }

  /** A dynamic block after its counts, section 3.2.7. */
  ghost function CountsEnd(nl: nat, nd: nat, nb: nat, st: Stream, out: seq<byte>, strict: bool): (r: End)
    requires nb <= 19
    ensures r.Done? ==> r.rest.left <= st.left
  {
    if nl > 286 || nd > 30 then Invalid else
    match TreeLens(0, nb, st, Repeat(0, 19))
    case BadLens => Invalid
    case ShortLens => Short
    case Lens(tree, st1) => LensEnd(tree, nl, nd, st1, out, strict)
  }

  ghost function DynamicEnd(st: Stream, out: seq<byte>, strict: bool): (r: End)
    ensures r.Done? ==> r.rest.left <= st.left
  {
    if st.left < 14 then Short else
    assert Pow2(4) == 16;
    CountsEnd(257 + Low(st.v, 5), 1 + Low(Shr(st.v, 5), 5), 4 + Low(Shr(st.v, 10), 4), st.Drop(14), out, strict)
  }

  // ---------------------------------------------------------------- fixed blocks and the whole

  /** The lengths of section 3.2.6. */
  function FixedLit(): seq<nat> {
    Repeat(8, 144) + Repeat(9, 112) + Repeat(7, 24) + Repeat(8, 8)
  }

  function FixedDist(): seq<nat> {
    Repeat(5, 30)
  }

  ghost function BlockEnd(kind: nat, st: Stream, out: seq<byte>, strict: bool): (r: End)
    ensures r.Done? ==> r.rest.left <= st.left
  {
    if kind == 0 then StoredEnd(st, out)
    else if kind == 1 then CodesEnd(FixedLit(), FixedDist(), st, out, strict)
    else if kind == 2 then DynamicEnd(st, out, strict)
    else Invalid
  }

  /** Blocks up to the one marked last. */
  ghost function StreamEnd(st: Stream, out: seq<byte>, strict: bool): (r: End)
    ensures r.Done? ==> r.rest.left <= st.left
    decreases st.left
  {
    if st.left < 3 then Short else
    var st1 := st.Drop(3);
    match BlockEnd(Low(Shr(st.v, 1), 2), st1, out, strict)
    case Done(out1, st2) => if Low(st.v, 1) == 1 then Done(out1, st2) else StreamEnd(st2, out1, strict)
    case e => e
  }

  /** One code length code read: what it adds and what is left. */
  lemma LensStep(tree: seq<nat>, n: nat, st: Stream, ll: seq<nat>, last: nat, j: nat)
    requires |tree| == 19 && |ll| < n && HeadOf(tree, st.v) == Some(j) && tree[j] <= st.left
    ensures var st1 := st.Drop(tree[j]);
            && (j < 16 ==> CodeLens(tree, n, st, ll, last) == CodeLens(tree, n, st1, ll + [j], j))
            && (j >= 16 ==> CodeLens(tree, n, st, ll, last) == RunStep(tree, n, st1, ll, last, j))
  {
    hide Shr, Rev, CodeOf, Repeat;
  }

  function RunBits(j: nat): nat {
    if j == 16 then 2 else if j == 17 then 3 else 7
  }

  function RunBase(j: nat): nat {
    if j == 18 then 11 else 3
  }

  ghost function RunStep(tree: seq<nat>, n: nat, st: Stream, ll: seq<nat>, last: nat, j: nat): Lens
    requires |tree| == 19 && |ll| < n && 16 <= j <= 18
  {
    if st.left < RunBits(j) then ShortLens else
    var count := RunBase(j) + Low(st.v, RunBits(j));
    var x := if j == 16 then last else 0;
    if |ll| + count > n then BadLens else CodeLens(tree, n, st.Drop(RunBits(j)), ll + Repeat(x, count), x)
  }

  lemma LensStop(tree: seq<nat>, n: nat, st: Stream, ll: seq<nat>, last: nat)
    requires |tree| == 19 && |ll| <= n
    ensures |ll| == n ==> CodeLens(tree, n, st, ll, last) == Lens(ll, st)
    ensures |ll| < n && HeadOf(tree, st.v).None? ==> CodeLens(tree, n, st, ll, last) == BadLens
    ensures var r := CodeLens(tree, n, st, ll, last);
            |ll| < n && HeadOf(tree, st.v).Some? && r.Lens? ==> r.rest.left <= st.left - tree[HeadOf(tree, st.v).value]
  {
    hide Shr, Rev, CodeOf, Repeat;
  }

  // ---------------------------------------------------------------- distances beyond the output

  /** Taking far distances to lead to zeros changes the meaning of no stream in which the format has none. */
  lemma {:induction false} CodesAgree(lit: seq<nat>, dist: seq<nat>, st: Stream, out: seq<byte>)
    requires |dist| <= 30
    ensures CodesEnd(lit, dist, st, out, false) != TooFar
    ensures CodesEnd(lit, dist, st, out, true) in {TooFar, CodesEnd(lit, dist, st, out, false)}
    decreases st.left
  {
    hide CodesEnd, MatchAfter, LzCopy, Rev, CodeOf, Shr;
    LastStep(lit, dist, st, out, false);
    LastStep(lit, dist, st, out, true);
    var h := HeadOf(lit, st.v);
    if h.Some? && h.value <= LAST_LENGTH && lit[h.value] <= st.left {
      var st1 := st.Drop(lit[h.value]);
      HeadsSome(lit, h.value, st.v);
      if h.value < END_OF_BLOCK {
        LiteralStep(lit, dist, st, out, h.value, false);
        LiteralStep(lit, dist, st, out, h.value, true);
        CodesAgree(lit, dist, st1, out + [h.value]);
      } else if h.value > END_OF_BLOCK {
        MatchStep(lit, dist, st, out, h.value, false);
        MatchStep(lit, dist, st, out, h.value, true);
        var m := MatchAfter(dist, h.value, st1);
        if m.Match? { CodesAgree(lit, dist, m.rest, LzCopy(out, m.dist, m.len)); }
      }
    }
  }

  lemma HeadsSome(lens: seq<nat>, s: nat, v: nat)
    requires Heads(lens, s, v)
    ensures lens[s] >= 1
  {
  }

  lemma BlockAgree(kind: nat, st: Stream, out: seq<byte>)
    ensures BlockEnd(kind, st, out, false) != TooFar
    ensures BlockEnd(kind, st, out, true) in {TooFar, BlockEnd(kind, st, out, false)}
  {
    hide CodesEnd, StoredEnd, TreeLens, CodeLens, Accepted, FixedLit, FixedDist, Low, Shr, Repeat;
    StoredNear(st, out);
    if kind == 1 {
      FixedDistances();
      CodesAgree(FixedLit(), FixedDist(), st, out);
    } else if kind == 2 && st.left >= 14 {
      DynamicAgree(st, out);
    }
  }

  lemma FixedDistances()
    ensures |FixedDist()| == 30
  {
  }

  lemma DynamicAgree(st: Stream, out: seq<byte>)
    ensures DynamicEnd(st, out, false) != TooFar
    ensures DynamicEnd(st, out, true) in {TooFar, DynamicEnd(st, out, false)}
  {
    hide CodesEnd, TreeLens, CodeLens, Accepted, Low, Shr, Repeat;
    forall ll: seq<nat>, nl: nat, st': Stream | nl <= |ll| <= nl + 30
      ensures TablesEnd(ll, nl, st', out, false) != TooFar
      ensures TablesEnd(ll, nl, st', out, true) in {TooFar, TablesEnd(ll, nl, st', out, false)}
    {
      CodesAgree(ll[..nl], ll[nl..], st', out);
    }
    hide TablesEnd;
  }

  lemma {:induction false} StoredNear(st: Stream, out: seq<byte>)
    ensures StoredEnd(st, out) != TooFar
  {
    var st0 := st.Drop(st.left % 8);
    if st0.left >= 32 { BytesNear(Low(st0.v, 16), st0.Drop(16).Drop(16), out); }
  }

  lemma {:induction false} BytesNear(n: nat, st: Stream, out: seq<byte>)
    ensures StoredBytes(n, st, out) != TooFar
    decreases n
  {
    if n > 0 && st.left >= 8 { BytesNear(n - 1, st.Drop(8), out + [ByteAt(st.v)]); }
  }

  /** The decompressor's meaning of a stream is the format's if and only if no distance reaches beyond the output. */
  lemma {:induction false} StreamAgree(st: Stream, out: seq<byte>)
    ensures StreamEnd(st, out, false) != TooFar
    ensures StreamEnd(st, out, true) == StreamEnd(st, out, false) <==> StreamEnd(st, out, true) != TooFar
    decreases st.left
  {
    hide BlockEnd, Low, Shr;
    if st.left >= 3 {
      var st1 := st.Drop(3);
      BlockAgree(Low(Shr(st.v, 1), 2), st1, out);
      var b := BlockEnd(Low(Shr(st.v, 1), 2), st1, out, false);
      if b.Done? && Low(st.v, 1) != 1 { StreamAgree(b.rest, b.out); }
    }
  }

  // ---------------------------------------------------------------- the tables

  /** The extra bits of a length code: none for the first eight and the last, then one more for every four. */
  lemma LengthBits(j: nat)
    requires j < 29
    ensures LENGTH_EXTRA[j] == if 8 <= j < 28 then j / 4 - 1 else 0
  {
  }

  /** Each length code begins where the one before it ends, up to the last, which stands for 258 alone. */
  lemma LengthTiles(j: nat)
    requires j < 28
    ensures LENGTHS[0] == 3 && LENGTHS[28] == 258 && LENGTH_EXTRA[28] == 0
    ensures LENGTHS[j] + Pow2(LENGTH_EXTRA[j]) == if j < 27 then LENGTHS[j + 1] else 259
  {
    SmallPowers();
    hide Pow2;
  }

  lemma SmallPowers()
    ensures Pow2(0) == 1 && Pow2(1) == 2 && Pow2(2) == 4 && Pow2(3) == 8 && Pow2(4) == 16 && Pow2(5) == 32
  {
  }

  lemma LargePowers()
    ensures Pow2(6) == 64 && Pow2(7) == 128 && Pow2(8) == 256 && Pow2(9) == 512 && Pow2(10) == 1024
    ensures Pow2(11) == 2048 && Pow2(12) == 4096 && Pow2(13) == 8192
  {
    assert Pow2(5) == 32;
  }

  /** Distances: none for the first two, then one more for every two. */
  lemma DistanceBits(j: nat)
    requires j < 30
    ensures DISTANCE_EXTRA[j] == if j < 2 then 0 else j / 2 - 1
  {
  }

  lemma DistanceTiles(j: nat)
    requires j < 30
    ensures DISTANCES[0] == 1
    ensures DISTANCES[j] + Pow2(DISTANCE_EXTRA[j]) == if j < 29 then DISTANCES[j + 1] else 32769
  {
    if j < 14 { NearTiles(j); } else { FarTiles(j); }
  }

  lemma NearTiles(j: nat)
    requires j < 14
    ensures DISTANCES[j] + Pow2(DISTANCE_EXTRA[j]) == DISTANCES[j + 1]
  {
    SmallPowers();
    hide Pow2;
    assert DISTANCE_EXTRA[j] <= 5;
  }

  lemma FarTiles(j: nat)
    requires 14 <= j < 30
    ensures DISTANCES[j] + Pow2(DISTANCE_EXTRA[j]) == if j < 29 then DISTANCES[j + 1] else 32769
  {
    LargePowers();
    hide Pow2;
    assert 6 <= DISTANCE_EXTRA[j] <= 13;
  }

  /** Codes whose ranges begin where the ones before them end, up to `top`. */
  ghost predicate Tiles(base: seq<nat>, extra: seq<nat>, n: nat, top: nat) {
    n <= |base| && n <= |extra| && forall j: nat :: j < n ==> TileAt(base, extra, n, top, j)
  }

  ghost predicate TileAt(base: seq<nat>, extra: seq<nat>, n: nat, top: nat, j: nat)
    requires j < n <= |base| && n <= |extra|
  {
    base[j] + Pow2(extra[j]) == if j < n - 1 then base[j + 1] else top
  }

  /** Code `j` with extra bits `x` stands for `v`. */
  ghost predicate Stands(base: seq<nat>, extra: seq<nat>, j: nat, x: nat, v: nat) {
    j < |base| && j < |extra| && x < Pow2(extra[j]) && v == base[j] + x
  }

  lemma {:induction false} TileOf(base: seq<nat>, extra: seq<nat>, n: nat, top: nat, v: nat) returns (j: nat, x: nat)
    requires n > 0 && Tiles(base, extra, n, top) && base[0] <= v < top
    ensures j < n && Stands(base, extra, j, x, v)
    decreases n
  {
    hide Pow2;
    assert TileAt(base, extra, n, top, n - 1);
    if base[n - 1] <= v {
      j, x := n - 1, v - base[n - 1];
    } else {
      var m, top' := n - 1, base[n - 1];
      forall i: nat | i < m ensures TileAt(base, extra, m, top', i) { assert TileAt(base, extra, n, top, i); }
      j, x := TileOf(base, extra, m, top', v);
    }
  }

  lemma {:induction false} TileOrder(base: seq<nat>, extra: seq<nat>, n: nat, top: nat, i: nat, j: nat)
    requires Tiles(base, extra, n, top) && i < j < n
    ensures base[i] + Pow2(extra[i]) <= base[j]
    decreases j
  {
    hide Pow2;
    assert TileAt(base, extra, n, top, j - 1);
    if i + 1 < j { TileOrder(base, extra, n, top, i, j - 1); }
  }

  lemma TileOnce(base: seq<nat>, extra: seq<nat>, n: nat, top: nat, i: nat, x: nat, j: nat, y: nat, v: nat)
    requires Tiles(base, extra, n, top) && i < n && j < n
    requires Stands(base, extra, i, x, v) && Stands(base, extra, j, y, v)
    ensures i == j && x == y
  {
    hide Pow2;
    if i < j { TileOrder(base, extra, n, top, i, j); }
    if j < i { TileOrder(base, extra, n, top, j, i); }
  }

  /** In such a table every value has a code, and only one. */
  lemma OneTile(base: seq<nat>, extra: seq<nat>, n: nat, top: nat, v: nat) returns (j: nat, x: nat)
    requires n > 0 && Tiles(base, extra, n, top) && base[0] <= v < top
    ensures j < n && Stands(base, extra, j, x, v)
    ensures forall i: nat, y: nat :: i < n && Stands(base, extra, i, y, v) ==> i == j && y == x
  {
    hide Tiles, Stands;
    j, x := TileOf(base, extra, n, top, v);
    forall i: nat, y: nat | i < n && Stands(base, extra, i, y, v) ensures i == j && y == x {
      TileOnce(base, extra, n, top, i, y, j, x, v);
    }
  }

  lemma LengthTable()
    ensures Tiles(LENGTHS, LENGTH_EXTRA, 28, 259) && LENGTHS[0] == 3 && Stands(LENGTHS, LENGTH_EXTRA, 28, 0, 258)
  {
    LengthTiles(0);
    assert Pow2(0) == 1;
    hide Pow2;
    forall k: nat | k < 28 ensures TileAt(LENGTHS, LENGTH_EXTRA, 28, 259, k) { LengthTiles(k); }
  }

  lemma DistanceTable()
    ensures Tiles(DISTANCES, DISTANCE_EXTRA, 30, 32769) && DISTANCES[0] == 1
  {
    hide Pow2;
    DistanceTiles(0);
    forall k: nat | k < 30 ensures TileAt(DISTANCES, DISTANCE_EXTRA, 30, 32769, k) { DistanceTiles(k); }
  }

  /** Every length from 3 to 258 has one of the codes below the last, and only one; 258 has the last one too. */
  lemma EveryLength(n: nat) returns (j: nat, x: nat)
    requires 3 <= n <= 258
    ensures j < 28 && Stands(LENGTHS, LENGTH_EXTRA, j, x, n)
    ensures forall i: nat, y: nat :: i < 28 && Stands(LENGTHS, LENGTH_EXTRA, i, y, n) ==> i == j && y == x
    ensures Stands(LENGTHS, LENGTH_EXTRA, 28, 0, 258)
  {
    LengthTable();
    hide Tiles, Stands;
    j, x := OneTile(LENGTHS, LENGTH_EXTRA, 28, 259, n);
  }

  /** Every distance from 1 to 32768 has exactly one code and one value of its extra bits. */
  lemma EveryDistance(n: nat) returns (j: nat, x: nat)
    requires 1 <= n <= 32768
    ensures j < 30 && Stands(DISTANCES, DISTANCE_EXTRA, j, x, n)
    ensures forall i: nat, y: nat :: i < 30 && Stands(DISTANCES, DISTANCE_EXTRA, i, y, n) ==> i == j && y == x
  {
    DistanceTable();
    hide Tiles, Stands;
    j, x := OneTile(DISTANCES, DISTANCE_EXTRA, 30, 32769, n);
  }

  /** The lengths of the code length codes come in the order of section 3.2.7: 16, 17, 18, 0, then outward from 8. */
  lemma OrderOutward(k: nat)
    requires k < 19
    ensures |ORDER| == 19 && ORDER[k] == if k < 3 then 16 + k else if k == 3 then 0 else if k % 2 == 0 then 6 + k / 2
      else 9 - k / 2
  {
  }

  lemma OrderOnce(i: nat, j: nat)
    requires i < j < 19
    ensures ORDER[i] != ORDER[j] && ORDER[i] <= 18
  {
    OrderOutward(i);
    OrderOutward(j);
  }

  /** The lengths of the fixed codes, section 3.2.6. */
  lemma FixedLengths(s: nat)
    ensures |FixedLit()| == 288 && |FixedDist()| == 30
    ensures s < 288 ==> FixedLit()[s] == if s < 144 then 8 else if s < 256 then 9 else if s < 280 then 7 else 8
    ensures s < 30 ==> FixedDist()[s] == 5
  {
  }
}
