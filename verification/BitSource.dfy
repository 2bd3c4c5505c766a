/** The bit buffer of zBoot/inflate.c: NEEDBITS, DUMPBITS and masking over a stream of bytes. */
module BitSource {
  import opened Basics
  import opened Bits
  import opened Crc

  /** Bytes as one number, the first byte lowest. */
  function Number(s: seq<byte>): nat {
    if |s| == 0 then 0 else s[0] + Shl(Number(s[1..]), 8)
  }

  /** Dropping low bits of a sum whose second part lies above them. */
  lemma {:induction false} ShrSum(b: nat, r: nat, k: nat, n: nat)
    requires n <= k
    ensures Shr(b + Shl(r, k), n) == Shr(b, n) + Shl(r, k - n)
    decreases n
  {
    if n > 0 {
      assert (b + Shl(r, k)) / 2 == b / 2 + Shl(r, k - 1);
      ShrSum(b / 2, r, k - 1, n - 1);
    }
  }

  lemma {:induction false} LowSum(b: nat, r: nat, k: nat, n: nat)
    requires n <= k
    ensures Low(b + Shl(r, k), n) == Low(b, n)
    decreases n
  {
    if n > 0 {
      assert (b + Shl(r, k)) / 2 == b / 2 + Shl(r, k - 1);
      assert (b + Shl(r, k)) % 2 == b % 2;
      LowSum(b / 2, r, k - 1, n - 1);
    }
  }

  /** Moving a byte into the buffer leaves the stream alone. */
  lemma Refill(b: nat, k: nat, s: seq<byte>)
    requires |s| > 0 && b < Pow2(k)
    ensures b + Shl(Number(s), k) == (b + Shl(s[0], k)) + Shl(Number(s[1..]), k + 8)
    ensures b + Shl(s[0], k) < Pow2(k + 8)
  {
    hide Shl, Pow2;
    var r, x: nat := Number(s[1..]), s[0];
    ShlAdd(x, Shl(r, 8), k);
    ShlShl(r, 8, k);
    ShlAdd(x, 1, k);
    ShlMono(x + 1, 256, k);
    assert 256 == Pow2(8) by { EightBits(); }
    ShlPow2(8, k);
    ShlPow2(0, k);
    assert Pow2(0) == 1 by { EightBits(); }
  }

  lemma EightBits()
    ensures Pow2(8) == 256 && Pow2(0) == 1
  {
    assert Pow2(4) == 16;
  }

  class Source {
    const input: seq<byte>
    var inptr: nat
    var bb: nat
    var bk: nat

    /** The buffer's bits are its low `bk`; at most 24 are held, so 32 suffice. */
    ghost predicate Valid()
      reads this
    {
      inptr <= |input| && bb < Pow2(bk) && bk <= 24 && bk <= 8 * inptr
    }

    /** All bits not yet consumed, the next one lowest. */
    ghost function Stream(): nat
      reads this
      requires inptr <= |input|
    {
      bb + Shl(Number(input[inptr..]), bk)
    }

    ghost function Left(): nat
      reads this
      requires inptr <= |input|
    {
      bk + 8 * (|input| - inptr)
    }

    constructor (input: seq<byte>)
      ensures Valid() && this.input == input && Stream() == Number(input) && Left() == 8 * |input| && bk == 0
      ensures inptr == 0
    {
      this.input := input;
      inptr, bb, bk := 0, 0, 0;
    }

    /** NEEDBITS(n); `ok` is false when the input runs out, where the original halts. */
    method Need(n: nat) returns (ok: bool)
      requires Valid() && n <= 16
      modifies this
      ensures Valid() && Stream() == old(Stream()) && Left() == old(Left())
      ensures ok <==> old(Left()) >= n
      ensures ok ==> bk >= n
    {
      hide Shl, Number, Pow2;
      while bk < n
        invariant Valid() && Stream() == old(Stream()) && Left() == old(Left())
        decreases 16 - bk
      {
        if inptr == |input| {
          return false;
        }
        Refill(bb, bk, input[inptr..]);
        assert input[inptr..][1..] == input[inptr + 1..];
        bb := bb + Shl(input[inptr], bk);
        inptr := inptr + 1;
        bk := bk + 8;
      }
      ok := true;
    }

    /** b & mask_bits[n]. */
    method Peek(n: nat) returns (x: nat)
      requires Valid() && n <= bk
      ensures x == Low(Stream(), n)
    {
      x := Low(bb, n);
      LowSum(bb, Number(input[inptr..]), bk, n);
    }

    /** DUMPBITS(n). */
    method Dump(n: nat)
      requires Valid() && n <= bk
      modifies this
      ensures Valid() && Stream() == Shr(old(Stream()), n) && Left() == old(Left()) - n
    {
      ShrSum(bb, Number(input[inptr..]), bk, n);
      ShrBound(bb, n, bk - n);
      bb := Shr(bb, n);
      bk := bk - n;
    }

    /** NEEDBITS(n), mask, DUMPBITS(n). */
    method Get(n: nat) returns (ok: bool, x: nat)
      requires Valid() && n <= 16
      modifies this
      ensures Valid() && (ok <==> old(Left()) >= n)
      ensures ok ==> x == Low(old(Stream()), n) && Stream() == Shr(old(Stream()), n) && Left() == old(Left()) - n
      ensures !ok ==> Left() == old(Left())
    {
      ok := Need(n);
      x := 0;
      if ok {
        x := Peek(n);
        Dump(n);
      }
    }
  }
}
