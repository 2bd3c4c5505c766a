/** The 32K sliding window of zBoot/inflate.c and its flush in zBoot/misc.c, against plain LZ77 output. */
module Window {
  import opened Basics
  import opened Crc

  const WSIZE: nat := 0x8000

  /** The byte `dist` back in the output; before its start there are zeros, as in a window that is cleared at first. */
  function Back(out: seq<byte>, dist: nat): byte
    requires 1 <= dist
  {
    if dist <= |out| then out[|out| - dist] else 0
  }

  /** Section 3.2.3 of RFC 1951: copy `n` bytes from `dist` back, one at a time. */
  function LzCopy(out: seq<byte>, dist: nat, n: nat): (r: seq<byte>)
    requires 1 <= dist
    ensures |r| == |out| + n && out <= r
    decreases n
  {
    if n == 0 then out else LzCopy(out + [Back(out, dist)], dist, n - 1)
  }

  lemma {:induction false} LzCopySplit(out: seq<byte>, dist: nat, a: nat, b: nat)
    requires 1 <= dist
    ensures LzCopy(LzCopy(out, dist, a), dist, b) == LzCopy(out, dist, a + b)
    decreases a
  {
    if a > 0 { LzCopySplit(out + [Back(out, dist)], dist, a - 1, b); }
  }

  /** A copy no longer than its distance is a plain block move: each byte is where it was before the copy. */
  lemma {:induction false} LzCopyBlock(out: seq<byte>, dist: nat, n: nat, block: seq<byte>)
    requires n <= dist && 1 <= dist && |block| == n && forall k :: 0 <= k < n ==> block[k] == Back(out, dist - k)
    ensures LzCopy(out, dist, n) == out + block
  {
    if n > 0 {
      LzCopyBlock(out, dist, n - 1, block[..n - 1]);
      LzCopySplit(out, dist, n - 1, 1);
      var r := out + block[..n - 1];
      assert LzCopy(r, dist, 1) == r + [Back(r, dist)];
      assert Back(r, dist) == block[n - 1];
    } else {
      assert out + block == out;
    }
  }

  /** The part of the window past the position `w` holds the last bytes flushed, or zeros when there are none. */
  ghost predicate Ring(slide: seq<byte>, w: nat, output: seq<byte>) {
    && |slide| == WSIZE && w <= WSIZE && (output == [] || |output| >= WSIZE)
    && forall j :: w <= j < WSIZE ==> slide[j] == if output == [] then 0 else output[|output| - WSIZE + j]
  }

  /** Where the byte `dist` back is in the window. */
  function At(w: nat, dist: nat): int {
    if dist <= w then w - dist else w - dist + WSIZE
  }

  lemma Source(slide: seq<byte>, w: nat, output: seq<byte>, dist: nat)
    requires Ring(slide, w, output) && 1 <= dist <= WSIZE && At(w, dist) < WSIZE
    ensures 0 <= At(w, dist) && slide[At(w, dist)] == Back(output + slide[..w], dist)
  {
  }

  /** A chunk that lies on one side of the position is a block of what was there before. */
  lemma SourceBlock(slide: seq<byte>, w: nat, output: seq<byte>, dist: nat, e: nat)
    requires Ring(slide, w, output) && 1 <= dist <= WSIZE
    requires At(w, dist) + e <= WSIZE && (At(w, dist) + e <= w || At(w, dist) > w)
    ensures e <= dist && 0 <= At(w, dist) && w <= |slide| == WSIZE
    ensures var block := slide[At(w, dist)..At(w, dist) + e];
      forall k :: 0 <= k < e ==> block[k] == Back(output + slide[..w], dist - k)
  {
    var block := slide[At(w, dist)..At(w, dist) + e];
    forall k | 0 <= k < e
      ensures block[k] == Back(output + slide[..w], dist - k)
    {
      assert At(w, dist - k) == At(w, dist) + k;
      Source(slide, w, output, dist - k);
    }
  }

  /** A block copied within the window: the old bytes, at their new place. */
  method Memcpy(a: array<byte>, w: nat, d: nat, e: nat)
    requires w + e <= a.Length && d + e <= a.Length
    modifies a
    ensures a[..w] == old(a[..w]) && a[w..w + e] == old(a[d..d + e]) && a[w + e..] == old(a[w + e..])
  {
    forall j | w <= j < w + e {
      a[j] := a[d + (j - w)];
    }
  }

  /** The window, the position in it, and what has been flushed. */
  class Slide {
    const slide: array<byte>
    const sum: Checksum
    var wp: nat
    var output: seq<byte>

    ghost predicate Valid()
      reads this, slide, sum, sum.tab
    {
      slide.Length == WSIZE && wp < WSIZE && Ring(slide[..], wp, output) && Sums()
    }

    /** The checksum covers what has been flushed. */
    ghost predicate Sums()
      reads this, sum, sum.tab
    {
      sum.Valid() && sum.crc == Register(START, output)
    }

    ghost function Repr(): set<object>
    {
      {this, slide, sum}
    }

    /** Everything decoded so far. */
    ghost function Out(): seq<byte>
      reads this, slide
      requires wp <= slide.Length
    {
      output + slide[..wp]
    }

    constructor ()
      ensures Valid() && Out() == output == [] && fresh(Repr()) && fresh(sum.tab)
    {
      slide := new byte[WSIZE](_ => 0);
      sum := new Checksum();
      wp := 0;
      output := [];
    }

    /** flush_window() on a full window. */
    method Flush()
      requires slide.Length == WSIZE && wp == WSIZE && Ring(slide[..], wp, output) && Sums()
      modifies this, sum
      ensures output == old(output) + slide[..] && wp == 0 && Valid() && Out() == old(Out())
    {
      hide Register, IsTable;
      ghost var whole := slide[..];
      assert slide[..wp] == whole;
      var c := sum.Update(slide[..wp]);
      RegisterConcat(START, output, slide[..wp]);
      output := output + slide[..wp];
      wp := 0;
      assert output + slide[..0] == output;
    }

    /** One byte put at the place of the window, which is flushed when it is full. */
    method Put(x: byte)
      requires Valid()
      modifies Repr()
      ensures Valid() && Out() == old(Out()) + [x]
    {
      hide Register;
      slide[wp] := x;
      wp := wp + 1;
      assert output + slide[..wp] == old(Out()) + [x];
      if wp == WSIZE {
        Flush();
      }
    }
  
    /** A chunk on one side of the position. */
    method MoveBlock(d: nat, e: nat, ghost dist: nat)
      requires slide.Length == WSIZE && Ring(slide[..], wp, output) && 1 <= dist <= WSIZE
      requires d == At(wp, dist) && d + e <= WSIZE && wp + e <= WSIZE && (d + e <= wp || d > wp)
      modifies `wp, slide
      ensures wp == old(wp) + e && Ring(slide[..], wp, output)
      ensures Out() == LzCopy(old(Out()), dist, e)
    {
      hide Ring, At, LzCopy;
      ghost var was, out := slide[..], Out();
      assert out == output + was[..wp];
      Memcpy(slide, wp, d, e);
      Moved(was, slide[..], wp, d, e, output);
      wp := wp + e;
      assert Out() == output + slide[..][..wp];
      BlockCopy(was, old(wp), output, dist, e);
    }

    /** The byte loop, for a chunk that runs into itself. */
    method MoveBytes(d: nat, e: nat, ghost dist: nat)
      requires slide.Length == WSIZE && Ring(slide[..], wp, output) && 1 <= dist <= WSIZE
      requires d == At(wp, dist) && d <= wp && wp + e <= WSIZE
      modifies `wp, slide
      ensures wp == old(wp) + e && Ring(slide[..], wp, output)
      ensures Out() == LzCopy(old(Out()), dist, e)
    {
      hide Ring, At, LzCopy;
      ghost var out := Out();
      CopyNone(out, dist);
      var k := 0;
      while k < e
        invariant 0 <= k <= e && wp == old(wp) + k && (wp < WSIZE ==> d + k == At(wp, dist))
        invariant Ring(slide[..], wp, output)
        invariant Out() == LzCopy(out, dist, k)
      {
        LzCopySplit(out, dist, k, 1);
        MoveByte(d + k, dist);
        AtNext(old(wp) + k, dist);
        k := k + 1;
      }
    }

    /** One byte moved to the position. */
    method MoveByte(d: nat, ghost dist: nat)
      requires slide.Length == WSIZE && wp < WSIZE && Ring(slide[..], wp, output) && 1 <= dist <= WSIZE
      requires d == At(wp, dist) && d < WSIZE
      modifies `wp, slide
      ensures wp == old(wp) + 1 && Ring(slide[..], wp, output)
      ensures Out() == LzCopy(old(Out()), dist, 1)
    {
      hide Ring, At, LzCopy;
      ghost var was, out := slide[..], Out();
      ghost var x := slide[d];
      assert out == output + was[..wp];
      Source(was, wp, output, dist);
      OneByte(out, dist);
      slide[wp] := slide[d];
      assert slide[..] == was[wp := x];
      RingByte(was, wp, output, x);
      wp := wp + 1;
      assert slide[..wp] == slide[..][..wp];
    }

    /** Copy a match of length `n` from `dist` back, in chunks that do not cross the window's end. The
        32-bit index `d` is reduced modulo the window size before each chunk. A distance beyond the
        start of the output is not noticed: it copies the zeros the window holds at first. */
    method CopyMatch(dist: nat, n: nat)
      requires Valid() && 1 <= dist <= WSIZE && n >= 1
      modifies Repr()
      ensures Valid() && Out() == LzCopy(old(Out()), dist, n)
    {
      hide Ring, At, LzCopy, Register, IsTable;
      ghost var out := Out();
      var d, left := wp - dist, n;
      StartAt(wp, dist);
      CopyNone(out, dist);
      while left > 0
        invariant 0 <= left <= n && Valid() && d % WSIZE == At(wp, dist)
        invariant Out() == LzCopy(out, dist, n - left)
        decreases left
      {
        d := d % WSIZE;
        var e := WSIZE - (if d > wp then d else wp);
        e := if e > left then left else e;
        left := left - e;
        LzCopySplit(out, dist, n - left - e, e);
        NextAt(wp, dist, d, e);
        Chunk(d, e, dist);
        d := d + e;
      }
    }

    /** One chunk and, at the window's end, the flush. */
    method Chunk(d: nat, e: nat, ghost dist: nat)
      requires Valid() && 1 <= dist <= WSIZE && e >= 1
      requires d == At(wp, dist) && d + e <= WSIZE && wp + e <= WSIZE
      modifies Repr()
      ensures Valid()
      ensures Out() == LzCopy(old(Out()), dist, e)
      ensures wp == if old(wp) + e == WSIZE then 0 else old(wp) + e
    {
      hide Ring, At, LzCopy, Register;
      if wp < d || wp - d >= e {
        MoveBlock(d, e, dist);
      } else {
        MoveBytes(d, e, dist);
      }
      if wp == WSIZE {
        Flush();
      }
    }

    /** The last flush, of the bytes still in the window. */
    method Finish()
      requires Valid()
      modifies this, sum
      ensures output == old(Out()) && wp == 0 && sum.Valid() && sum.crc == Register(START, output)
    {
      hide Register, Ring, IsTable;
      if wp != 0 {
        var c := sum.Update(slide[..wp]);
        RegisterConcat(START, output, slide[..wp]);
        output := output + slide[..wp];
        wp := 0;
      } else {
        assert output + slide[..wp] == output;
      }
    }
  }

  lemma StartAt(w: nat, dist: nat)
    requires w < WSIZE && 1 <= dist <= WSIZE
    ensures (w - dist) % WSIZE == At(w, dist)
  {
  }

  /** Position and source index advance together. */
  lemma NextAt(w: nat, dist: nat, d: nat, e: nat)
    requires w < WSIZE && 1 <= dist <= WSIZE && d == At(w, dist) && d + e <= WSIZE && w + e <= WSIZE
    ensures (d + e) % WSIZE == At(if w + e == WSIZE then 0 else w + e, dist)
  {
  }

  lemma Moved(was: seq<byte>, now: seq<byte>, w: nat, d: nat, e: nat, output: seq<byte>)
    requires Ring(was, w, output) && |now| == WSIZE && w + e <= WSIZE && d + e <= WSIZE
    requires now[..w] == was[..w] && now[w..w + e] == was[d..d + e] && now[w + e..] == was[w + e..]
    ensures Ring(now, w + e, output) && output + now[..w + e] == (output + was[..w]) + was[d..d + e]
  {
    assert now[..w + e] == now[..w] + now[w..w + e];
    forall j | w + e <= j < WSIZE ensures now[j] == was[j] {
      assert now[w + e..][j - w - e] == was[w + e..][j - w - e];
    }
  }

  lemma BlockCopy(slide: seq<byte>, w: nat, output: seq<byte>, dist: nat, e: nat)
    requires Ring(slide, w, output) && 1 <= dist <= WSIZE
    requires At(w, dist) + e <= WSIZE && (At(w, dist) + e <= w || At(w, dist) > w)
    ensures 0 <= At(w, dist)
    ensures LzCopy(output + slide[..w], dist, e) == (output + slide[..w]) + slide[At(w, dist)..At(w, dist) + e]
  {
    hide LzCopy, Ring, Back;
    SourceBlock(slide, w, output, dist, e);
    var d := At(w, dist);
    LzCopyBlock(output + slide[..w], dist, e, slide[d..d + e]);
  }

  lemma CopyNone(out: seq<byte>, dist: nat)
    requires 1 <= dist
    ensures LzCopy(out, dist, 0) == out
  {
  }

  lemma OneByte(out: seq<byte>, dist: nat)
    requires 1 <= dist
    ensures LzCopy(out, dist, 1) == out + [Back(out, dist)]
  {
  }

  lemma RingByte(slide: seq<byte>, w: nat, output: seq<byte>, x: byte)
    requires Ring(slide, w, output) && w < WSIZE
    ensures Ring(slide[w := x], w + 1, output)
    ensures output + slide[w := x][..w + 1] == (output + slide[..w]) + [x]
  {
  }

  lemma AtNext(w: nat, dist: nat)
    requires 0 <= At(w, dist) <= w && 1 <= dist <= WSIZE
    ensures w + 1 < WSIZE ==> At(w + 1, dist) == At(w, dist) + 1
  {
  }
}
