/** Bit strings held in integers, least significant bit first. */
module Bits {

  function Pow2(n: nat): (r: nat)
    ensures r >= 1
  {
    if n == 0 then 1 else 2 * Pow2(n - 1)
  }

  /** `a << n`. */
  function Shl(a: nat, n: nat): nat {
    if n == 0 then a else 2 * Shl(a, n - 1)
  }

  /** `a >> n`. */
  function Shr(a: nat, n: nat): nat {
    if n == 0 then a else Shr(a / 2, n - 1)
  }

  /** `a & ((1 << n) - 1)`. */
  function Low(a: nat, n: nat): (r: nat)
    ensures r < Pow2(n)
  {
    if n == 0 then 0 else a % 2 + 2 * Low(a / 2, n - 1)
  }

  /** Bit `n` of `a`. */
  function Bit(a: nat, n: nat): (r: nat)
    ensures r <= 1
  {
    Shr(a, n) % 2
  }

  /** The first `n` bits of `v` as a number, the first bit being the most significant. */
  function Rev(v: nat, n: nat): (r: nat)
    ensures r < Pow2(n)
  {
    if n == 0 then 0 else 2 * Rev(v, n - 1) + Bit(v, n - 1)
  }

  lemma {:induction false} Pow2Mono(a: nat, b: nat)
    requires a <= b
    ensures Pow2(a) <= Pow2(b)
    ensures a < b ==> Pow2(a) < Pow2(b)
  {
    if a < b { Pow2Mono(a, b - 1); }
  }

  lemma {:induction false} ShlMono(a: nat, b: nat, n: nat)
    requires a <= b
    ensures Shl(a, n) <= Shl(b, n)
    ensures a < b ==> Shl(a, n) < Shl(b, n)
  {
    if n != 0 { ShlMono(a, b, n - 1); }
  }

  lemma {:induction false} ShlPow2(k: nat, n: nat)
    ensures Shl(Pow2(k), n) == Pow2(k + n)
  {
    if n != 0 { ShlPow2(k, n - 1); }
  }

  lemma {:induction false} ShlAdd(a: nat, b: nat, n: nat)
    ensures Shl(a + b, n) == Shl(a, n) + Shl(b, n)
  {
    if n != 0 { ShlAdd(a, b, n - 1); }
  }

  lemma {:induction false} ShlShl(a: nat, m: nat, n: nat)
    ensures Shl(Shl(a, m), n) == Shl(a, m + n)
  {
    if n != 0 { ShlShl(a, m, n - 1); }
  }

  lemma {:induction false} LowSmall(a: nat, n: nat)
    requires a < Pow2(n)
    ensures Low(a, n) == a && Shr(a, n) == 0
  {
    if n != 0 { LowSmall(a / 2, n - 1); }
  }

  /** Masking with fewer bits undoes masking with more. */
  lemma {:induction false} LowLow(a: nat, k: nat, n: nat)
    requires k <= n
    ensures Low(Low(a, n), k) == Low(a, k)
  {
    if k != 0 {
      assert Low(a, n) / 2 == Low(a / 2, n - 1) && Low(a, n) % 2 == a % 2;
      LowLow(a / 2, k - 1, n - 1);
    }
  }

  /** A number is its low bits and the rest. */
  lemma {:induction false} Recombine(a: nat, n: nat)
    ensures a == Low(a, n) + Shl(Shr(a, n), n)
  {
    if n != 0 { Recombine(a / 2, n - 1); }
  }

  /** Low bits and the rest can be read back from their sum. */
  lemma {:induction false} Separate(p: nat, i: nat, n: nat)
    requires p < Pow2(n)
    ensures Low(p + Shl(i, n), n) == p && Shr(p + Shl(i, n), n) == i
  {
    if n != 0 {
      assert (p + Shl(i, n)) / 2 == p / 2 + Shl(i, n - 1);
      Separate(p / 2, i, n - 1);
    }
  }

  /** The first `m + n` bits are the first `m` and the next `n`. */
  lemma {:induction false} LowSplit(a: nat, m: nat, n: nat)
    ensures Low(a, m + n) == Low(a, m) + Shl(Low(Shr(a, m), n), m)
  {
    if m != 0 { LowSplit(a / 2, m - 1, n); }
  }

  /** Numbers that agree on `m + n` bits agree on the last `n` of them. */
  lemma {:induction false} MiddleBits(a: nat, b: nat, m: nat, n: nat)
    requires Low(a, m + n) == Low(b, m + n)
    ensures Low(Shr(a, m), n) == Low(Shr(b, m), n)
  {
    if m != 0 { MiddleBits(a / 2, b / 2, m - 1, n); }
  }

  lemma {:induction false} ShrShr(a: nat, m: nat, n: nat)
    ensures Shr(Shr(a, m), n) == Shr(a, m + n)
  {
    if m != 0 { ShrShr(a / 2, m - 1, n); }
  }

  lemma {:induction false} ShrBound(a: nat, m: nat, n: nat)
    requires a < Pow2(m + n)
    ensures Shr(a, m) < Pow2(n)
  {
    if m != 0 { ShrBound(a / 2, m - 1, n); }
  }

  /** The next bit extends the low bits at the top. */
  lemma {:induction false} LowTop(a: nat, n: nat)
    ensures Low(a, n + 1) == Low(a, n) + (if Bit(a, n) == 1 then Pow2(n) else 0)
  {
    if n != 0 { LowTop(a / 2, n - 1); }
  }

  /** Numbers that agree on `n` bits are at least `2^n` apart. */
  lemma {:induction false} LowApart(a: nat, b: nat, n: nat)
    requires Low(a, n) == Low(b, n) && a < b
    ensures b >= a + Pow2(n)
  {
    if n != 0 { LowApart(a / 2, b / 2, n - 1); }
  }

  lemma {:induction false} LowAdd(a: nat, n: nat)
    ensures Low(a + Pow2(n), n) == Low(a, n)
  {
    if n != 0 {
      assert (a + Pow2(n)) / 2 == a / 2 + Pow2(n - 1);
      LowAdd(a / 2, n - 1);
    }
  }

  /** The first `k` of `n` bits bound all of them. */
  lemma {:induction false} RevBounds(v: nat, n: nat, k: nat)
    requires k <= n
    ensures Shl(Rev(v, k), n - k) <= Rev(v, n) < Shl(Rev(v, k) + 1, n - k)
  {
    if k < n { RevBounds(v, n - 1, k); }
  }

  lemma AppendBit(la: nat, lb: nat, ra: nat, rb: nat, p: nat, ba: nat, bb: nat)
    requires la < p && lb < p && ba <= 1 && bb <= 1 && (la == lb <==> ra == rb)
    ensures la + (if ba == 1 then p else 0) == lb + (if bb == 1 then p else 0) <==> 2 * ra + ba == 2 * rb + bb
  {
  }

  /** Two streams agree on their first `k` bits exactly when those bits spell the same number. */
  lemma {:induction false} RevEqual(a: nat, b: nat, k: nat)
    ensures Low(a, k) == Low(b, k) <==> Rev(a, k) == Rev(b, k)
  {
    if k != 0 {
      var n := k - 1;
      RevEqual(a, b, n);
      LowTop(a, n);
      LowTop(b, n);
      AppendBit(Low(a, n), Low(b, n), Rev(a, n), Rev(b, n), Pow2(n), Bit(a, n), Bit(b, n));
    }
  }

  lemma RevLow(v: nat, k: nat)
    ensures Rev(Low(v, k), k) == Rev(v, k)
  {
    LowLow(v, k, k);
    RevEqual(Low(v, k), v, k);
  }

  /** Appending zero bits. */
  lemma {:induction false} RevZeros(i: nat, w: nat, k: nat)
    requires i < Pow2(w) && w <= k
    ensures Rev(i, k) == Shl(Rev(i, w), k - w)
  {
    if w < k {
      RevZeros(i, w, k - 1);
      assert Bit(i, k - 1) == 0 by {
        Pow2Mono(w, k - 1);
        LowSmall(i, k - 1);
      }
    }
  }

  /** Setting the bit after the last. */
  lemma RevSetTop(i: nat, k: nat)
    requires i < Pow2(k)
    ensures Rev(i + Pow2(k), k + 1) == 2 * Rev(i, k) + 1
  {
    assert Bit(i + Pow2(k), k) == 1 && Low(i + Pow2(k), k) == Low(i, k) by {
      ShlPow2(0, k);
      Separate(i, 1, k);
      LowSmall(i, k);
    }
    RevEqual(i + Pow2(k), i, k);
  }
}
