/** Canonical Huffman codes as section 3.2.2 of RFC 1951 defines them. */
module Canonical {
  import opened Bits

  const BMAX: nat := 16    // maximum bit length of any code
  const N_MAX: nat := 288  // maximum number of codes in any set

  /** How many of the symbols have code length `k`. */
  function Count(lens: seq<nat>, k: nat): (r: nat)
    ensures r <= |lens|
  {
    if |lens| == 0 then 0
    else Count(lens[..|lens| - 1], k) + (if lens[|lens| - 1] == k then 1 else 0)
  }

  /** bl_count of step 1, indexed by code length. */
  function BlCount(lens: seq<nat>): (c: seq<nat>)
    ensures |c| == BMAX + 1
    ensures forall k :: 0 <= k <= BMAX ==> c[k] == Count(lens, k)
  {
    seq(BMAX + 1, k requires k >= 0 => Count(lens, k))
  }

  /** next_code of step 2: the smallest code of length `k`. */
  function NextCode(c: seq<nat>, k: nat): nat
    requires |c| == BMAX + 1 && k <= BMAX
  {
    if k <= 1 then 0 else 2 * (NextCode(c, k - 1) + c[k - 1])
  }

  /** The code of step 3 for symbol `s`, most significant bit first. */
  function CodeOf(lens: seq<nat>, s: nat): nat
    requires s < |lens| && 1 <= lens[s] <= BMAX
  {
    NextCode(BlCount(lens), lens[s]) + Count(lens[..s], lens[s])
  }

  /** Huffman codes are packed most significant bit first: symbol `s` heads the stream `v`. */
  predicate Heads(lens: seq<nat>, s: nat, v: nat) {
    s < |lens| && 1 <= lens[s] <= BMAX && Rev(v, lens[s]) == CodeOf(lens, s)
  }

  /** The counts fill the code space up to length `g` exactly. */
  predicate Full(c: seq<nat>, g: nat) {
    |c| == BMAX + 1 && 1 <= g <= BMAX && c[g] >= 1 && Limit(c, g) == Pow2(g)
  }

  /** One more than the largest code of length `k`. */
  function Limit(c: seq<nat>, k: nat): nat
    requires |c| == BMAX + 1 && k <= BMAX
  {
    NextCode(c, k) + c[k]
  }

  /** Every code of a longer length lies above all codes of a shorter one. */
  lemma {:induction false} CodesBelow(c: seq<nat>, k: nat, k': nat)
    requires |c| == BMAX + 1 && 1 <= k < k' <= BMAX
    ensures Shl(Limit(c, k), k' - k) <= NextCode(c, k')
  {
    if k + 1 < k' {
      CodesBelow(c, k, k' - 1);
    }
  }

  /** No code of length `k < g` reaches the top of a full code space. */
  lemma FullBelow(c: seq<nat>, g: nat, k: nat)
    requires Full(c, g) && 1 <= k < g
    ensures Limit(c, k) < Pow2(k)
  {
    CodesBelow(c, k, g);
    ShlPow2(k, g - k);
    if Limit(c, k) >= Pow2(k) {
      ShlMono(Pow2(k), Limit(c, k), g - k);
    }
  }

  /** The stream starts with one of the codes of length `k`. */
  predicate HasLength(c: seq<nat>, k: nat, v: nat)
  {
    |c| == BMAX + 1 && 1 <= k <= BMAX && NextCode(c, k) <= Rev(v, k) < Limit(c, k)
  }

  /** No code is a prefix of another. */
  lemma PrefixFree(c: seq<nat>, k: nat, k': nat, v: nat)
    requires HasLength(c, k, v) && HasLength(c, k', v)
    ensures k == k'
  {
    if k < k' { NoShorter(c, k, k', v); }
    if k' < k { NoShorter(c, k', k, v); }
  }

  lemma NoShorter(c: seq<nat>, k: nat, k': nat, v: nat)
    requires |c| == BMAX + 1 && 1 <= k < k' <= BMAX
    requires NextCode(c, k') <= Rev(v, k')
    ensures Rev(v, k) >= Limit(c, k)
  {
    CodesBelow(c, k, k');
    RevBounds(v, k', k);
    var d: nat := k' - k;
    if Rev(v, k) + 1 <= Limit(c, k) {
      ShlMono(Rev(v, k) + 1, Limit(c, k), d);
    }
  }

  /** Counts are monotone along the list, and a symbol adds itself. */
  lemma {:induction false} CountPrefix(lens: seq<nat>, s: nat, k: nat)
    requires s <= |lens|
    ensures Count(lens[..s], k) <= Count(lens, k)
    ensures s < |lens| && lens[s] == k ==> Count(lens[..s], k) < Count(lens, k)
  {
    if s == |lens| {
      assert lens[..s] == lens;
    } else {
      var t := lens[..|lens| - 1];
      assert t[..s] == lens[..s];
      if s < |t| {
        CountPrefix(t, s, k);
      }
    }
  }

  /** Symbols that share a code length have their codes in symbol order. */
  lemma CodeOrder(lens: seq<nat>, s: nat, s': nat)
    requires s < s' < |lens| && 1 <= lens[s] <= BMAX && lens[s] == lens[s']
    ensures CodeOf(lens, s) < CodeOf(lens, s')
  {
    assert lens[..s'][..s] == lens[..s];
    CountPrefix(lens[..s'], s, lens[s]);
  }

  lemma HeadsHasLength(lens: seq<nat>, s: nat, v: nat)
    requires Heads(lens, s, v)
    ensures HasLength(BlCount(lens), lens[s], v)
  {
    CountPrefix(lens, s, lens[s]);
  }

  /** At most one symbol heads any stream, so canonical decoding is a function. */
  lemma HeadsUnique(lens: seq<nat>, s: nat, s': nat, v: nat)
    requires Heads(lens, s, v) && Heads(lens, s', v)
    ensures s == s'
  {
    HeadsHasLength(lens, s, v);
    HeadsHasLength(lens, s', v);
    PrefixFree(BlCount(lens), lens[s], lens[s'], v);
    if s < s' {
      CodeOrder(lens, s, s');
    } else if s' < s {
      CodeOrder(lens, s', s);
    }
  }

  /** The `q`-th symbol of length `k`. */
  lemma {:induction false} NthSymbol(lens: seq<nat>, k: nat, q: nat) returns (s: nat)
    requires q < Count(lens, k)
    ensures s < |lens| && lens[s] == k && Count(lens[..s], k) == q
  {
    var t := lens[..|lens| - 1];
    if q < Count(t, k) {
      s := NthSymbol(t, k, q);
      assert lens[..s] == t[..s];
    } else {
      s := |lens| - 1;
    }
  }

  lemma SomeHeads(lens: seq<nat>, k: nat, v: nat)
    requires HasLength(BlCount(lens), k, v)
    ensures exists s :: Heads(lens, s, v)
  {
    var s := NthSymbol(lens, k, Rev(v, k) - NextCode(BlCount(lens), k));
    assert Heads(lens, s, v);
  }

  /** A stream starts with a code of some length up to `k`, or lies above all of them. */
  lemma {:induction false} CodeOrAbove(c: seq<nat>, k: nat, v: nat)
    requires |c| == BMAX + 1 && 1 <= k <= BMAX
    ensures (exists j: nat :: j <= k && HasLength(c, j, v)) || Rev(v, k) >= Limit(c, k)
  {
    if k > 1 { CodeOrAbove(c, k - 1, v); }
    assert HasLength(c, k, v) || Rev(v, k) >= Limit(c, k) || Rev(v, k) < NextCode(c, k);
  }

  /** The lengths use up every pattern. */
  predicate Complete(lens: seq<nat>) {
    Limit(BlCount(lens), BMAX) == Pow2(BMAX)
  }

  /** A complete set decodes every stream. */
  lemma CompleteDecodes(lens: seq<nat>, v: nat)
    requires Complete(lens)
    ensures exists s :: Heads(lens, s, v)
  {
    hide Rev, NextCode, HasLength;
    CodeOrAbove(BlCount(lens), BMAX, v);
    RevFits(v, BMAX);
    var k: nat :| HasLength(BlCount(lens), k, v);
    SomeHeads(lens, k, v);
  }

  lemma RevFits(v: nat, g: nat)
    ensures Rev(v, g) < Pow2(g)
  {
  }
}
