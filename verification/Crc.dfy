/** The CRC-32 of section 8 of RFC 1952: the table of zBoot/misc.c against the bit-at-a-time register. */
module Crc {
  import opened Basics
  import Bits

  const POLY: bv32 := 0xedb88320
  const START: bv32 := 0xffffffff

  function Xor(a: bv32, b: bv32): bv32 {
    a ^ b
  }

  function Half(c: bv32): bv32 {
    c >> 1
  }

  predicate Odd(c: bv32) {
    c & 1 == 1
  }

  /** One bit through the reflected shift register. */
  function Shift(c: bv32): bv32 {
    if Odd(c) then Xor(Half(c), POLY) else Half(c)
  }

  function Shifts(c: bv32, n: nat): bv32
    decreases n
  {
    if n == 0 then c else Shifts(Shift(c), n - 1)
  }

  /** A word moved up by one bit, with a new lowest bit. */
  function Push(bit: bool, w: bv32): bv32 {
    (if bit then 1 else 0) | (w << 1)
  }

  function And(v: bv32, m: bv32): bv32 {
    v & m
  }

  /** The low `n` bits of a number as a word. */
  function Word(x: nat, n: nat): bv32
    decreases n
  {
    if n == 0 then 0 else Push(x % 2 == 1, Word(x / 2, n - 1))
  }

  /** The low `n` bits of a word as a number. */
  function LowValue(v: bv32, n: nat): nat
    decreases n
  {
    if n == 0 then 0 else (if Odd(v) then 1 else 0) + 2 * LowValue(Half(v), n - 1)
  }

  function OnesMask(n: nat): bv32 {
    if n == 0 then 0 else Push(true, OnesMask(n - 1))
  }

  /** One byte into the register: exclusive or, then eight shifts. */
  function Feed(c: bv32, x: byte): bv32 {
    Shifts(Xor(c, Word(x, 8)), 8)
  }

  /** The register after a sequence of bytes. */
  function Register(c: bv32, s: seq<byte>): bv32 {
    if |s| == 0 then c else Feed(Register(c, s[..|s| - 1]), s[|s| - 1])
  }

  /** The CRC of a message. */
  function Crc32(s: seq<byte>): bv32 {
    Xor(Register(START, s), START)
  }

  lemma XorHalf(a: bv32, b: bv32)
    ensures Half(Xor(a, b)) == Xor(Half(a), Half(b))
    ensures Odd(Xor(a, b)) <==> Odd(a) != Odd(b)
  {
  }

  lemma XorSwap(a: bv32, b: bv32, p: bv32)
    ensures Xor(Xor(a, p), b) == Xor(Xor(a, b), p) && Xor(a, Xor(b, p)) == Xor(Xor(a, b), p)
    ensures Xor(Xor(a, p), Xor(b, p)) == Xor(a, b)
  {
  }

  /** The shift register is linear. */
  lemma ShiftLinear(a: bv32, b: bv32)
    ensures Shift(Xor(a, b)) == Xor(Shift(a), Shift(b))
  {
    hide Xor, Half, Odd;
    XorHalf(a, b);
    XorSwap(Half(a), Half(b), POLY);
  }

  lemma {:induction false} ShiftsLinear(a: bv32, b: bv32, n: nat)
    ensures Shifts(Xor(a, b), n) == Xor(Shifts(a, n), Shifts(b, n))
    decreases n
  {
    hide Xor, Shift;
    if n > 0 {
      ShiftLinear(a, b);
      ShiftsLinear(Shift(a), Shift(b), n - 1);
    }
  }

  predicate Clear(d: bv32, m: bv32) {
    d & m == 0
  }

  /** While the masked low bits are zero the register only shifts. */
  lemma ZeroShift(d: bv32, m: bv32, n: nat)
    requires Clear(d, m) && Odd(m) && n > 0
    ensures Shifts(d, n) == Shifts(Half(d), n - 1) && Clear(Half(d), Half(m))
  {
    MaskShift(d, m);
  }

  lemma MaskShift(d: bv32, m: bv32)
    requires Clear(d, m) && Odd(m)
    ensures !Odd(d) && Clear(Half(d), Half(m))
  {
  }

  function Halves(d: bv32, n: nat): bv32 {
    if n == 0 then d else Half(Halves(d, n - 1))
  }

  /** Mask of the low `8 - n` bits. */
  function LowMask(n: nat): bv32 {
    Halves(0xff, n)
  }

  lemma MaskOdd(n: nat)
    requires n < 8
    ensures Odd(LowMask(n))
  {
    assert LowMask(0) == 0xff;
    assert LowMask(1) == 0x7f;
    assert LowMask(2) == 0x3f;
    assert LowMask(3) == 0x1f;
    assert LowMask(4) == 0xf;
    assert LowMask(5) == 0x7;
    assert LowMask(6) == 0x3;
    assert LowMask(7) == 0x1;
  }

  lemma {:induction false} HighShifts(d: bv32, n: nat)
    requires n <= 8 && Clear(d, 0xff)
    ensures Shifts(d, 8) == Shifts(Halves(d, n), 8 - n) && Clear(Halves(d, n), LowMask(n))
  {
    hide Shift, Half, Odd, Clear, Shifts;
    if n > 0 {
      HighShifts(d, n - 1);
      MaskOdd(n - 1);
      ZeroShift(Halves(d, n - 1), LowMask(n - 1), 9 - n);
    }
  }

  lemma HalfSteps(d: bv32)
    ensures Half(d) == d >> 1 && Half(d >> 1) == d >> 2 && Half(d >> 2) == d >> 3 && Half(d >> 3) == d >> 4
    ensures Half(d >> 4) == d >> 5 && Half(d >> 5) == d >> 6 && Half(d >> 6) == d >> 7 && Half(d >> 7) == d >> 8
  {
  }

  lemma DropByte(c: bv32)
    ensures (c & 0xffffff00) >> 8 == c >> 8 && Clear(c & 0xffffff00, 0xff)
  {
  }

  /** Eight shifts are the table entry of the low byte and the other bytes moved down. */
  lemma ByteSplit(c: bv32)
    ensures Shifts(c, 8) == Xor(Shifts(c & 0xff, 8), c >> 8)
  {
    hide Shifts, Xor, Halves, Clear;
    var d := c & 0xffffff00;
    DropByte(c);
    HighShifts(d, 8);
    HalvesAre(d, 8);
    JoinByte(c);
    ShiftsLinear(c & 0xff, d, 8);
    NoShifts(d >> 8);
  }

  lemma NoShifts(c: bv32)
    ensures Shifts(c, 0) == c
  {
  }

  lemma JoinByte(c: bv32)
    ensures c == Xor(c & 0xff, c & 0xffffff00)
  {
  }

  // ---------------------------------------------------------------- bytes as words and indices

  lemma {:induction false} ValueFits(v: bv32, n: nat)
    ensures LowValue(v, n) < Bits.Pow2(n)
  {
    if n > 0 { ValueFits(Half(v), n - 1); }
  }

  lemma JoinBit(v: bv32, m: bv32)
    ensures Push(Odd(v), And(Half(v), m)) == And(v, Push(true, m))
  {
  }

  lemma {:induction false} WordOfValue(v: bv32, n: nat)
    ensures Word(LowValue(v, n), n) == And(v, OnesMask(n))
    decreases n
  {
    hide Odd, Half, Push, And;
    if n == 0 {
      AndZero(v);
    } else {
      WordOfValue(Half(v), n - 1);
      JoinBit(v, OnesMask(n - 1));
    }
  }

  lemma AndZero(v: bv32)
    ensures And(v, 0) == 0
  {
  }

  lemma EightOnes()
    ensures OnesMask(8) == 0xff
  {
    assert OnesMask(2) == 3;
    assert OnesMask(4) == 15;
    assert OnesMask(6) == 63;
  }

  lemma ByteFits(v: bv32)
    ensures LowValue(v, 8) < 256
  {
    hide LowValue;
    ValueFits(v, 8);
    assert Bits.Pow2(4) == 16;
  }

  lemma ByteWord(v: bv32)
    ensures Word(LowValue(v, 8), 8) == v & 0xff
  {
    hide Word, OnesMask, LowValue;
    WordOfValue(v, 8);
    EightOnes();
  }

  /** The index of a word's low byte, and the word that index stands for. */
  function LowIndex(v: bv32): (i: byte)
    ensures Word(i, 8) == v & 0xff
  {
    ByteFits(v);
    ByteWord(v);
    LowValue(v, 8)
  }

  // ---------------------------------------------------------------- the table

  /** The pattern has bit `31 - p` for each term `x^p` of the polynomial, except the 32nd. */
  lemma PolynomialTerms()
    ensures POLY == (1 << 31) | (1 << 30) | (1 << 29) | (1 << 27) | (1 << 26) | (1 << 24) | (1 << 23)
                    | (1 << 21) | (1 << 20) | (1 << 19) | (1 << 15) | (1 << 9) | (1 << 8) | (1 << 5)
  {
  }

  /** `k = i | 256` shifted down `t` places still carries the bits of `i` that are left. */
  lemma MarkedBits(x: bv32, t: nat)
    requires x & 0xffffff00 == 0 && t <= 8
    ensures Halves(x | 256, t) == 1 <==> t == 8
    ensures t < 8 ==> (Odd(Halves(x | 256, t)) <==> Odd(Halves(x, t)))
    ensures t == 8 ==> Halves(x, t) == 0
  {
    hide Halves, Half;
    HalvesAre(x | 256, t);
    HalvesAre(x, t);
    MarkedShift(x, t);
  }

  /** `c >> t`, for the counts that occur. */
  function Down(c: bv32, t: nat): bv32
    requires t <= 8
  {
    match t
    case 0 => c
    case 1 => c >> 1
    case 2 => c >> 2
    case 3 => c >> 3
    case 4 => c >> 4
    case 5 => c >> 5
    case 6 => c >> 6
    case 7 => c >> 7
    case _ => c >> 8
  }

  lemma {:induction false} HalvesAre(d: bv32, t: nat)
    requires t <= 8
    ensures Halves(d, t) == Down(d, t)
  {
    hide Half;
    HalfSteps(d);
    if t > 0 { HalvesAre(d, t - 1); }
  }

  lemma MarkedShift(x: bv32, t: nat)
    requires x & 0xffffff00 == 0 && t <= 8
    ensures Down(x | 256, t) == 1 <==> t == 8
    ensures t < 8 ==> (Odd(Down(x | 256, t)) <==> Odd(Down(x, t)))
    ensures t == 8 ==> Down(x, t) == 0
  {
  }

  lemma SmallWord(x: nat)
    ensures Word(x, 8) & 0xffffff00 == 0
  {
    hide Word, OnesMask;
    EightOnes();
    WordBound(x, 8, 0xff);
  }

  /** A word of `n` bits stays within the mask of `n` ones. */
  lemma {:induction false} WordBound(x: nat, n: nat, m: bv32)
    requires m == OnesMask(n)
    ensures And(Word(x, n), m) == Word(x, n)
    decreases n
  {
    hide Push, And;
    if n == 0 { AndZero(0); }
    if n > 0 {
      WordBound(x / 2, n - 1, OnesMask(n - 1));
      PushBound(x % 2 == 1, Word(x / 2, n - 1), OnesMask(n - 1));
    }
  }

  lemma PushBound(bit: bool, w: bv32, m: bv32)
    requires And(w, m) == w
    ensures And(Push(bit, w), Push(true, m)) == Push(bit, w)
  {
  }

  lemma {:induction false} ShiftsLast(c: bv32, n: nat)
    ensures Shifts(c, n + 1) == Shift(Shifts(c, n))
    decreases n
  {
    hide Shift;
    if n > 0 { ShiftsLast(Shift(c), n - 1); }
  }

  /** One turn of the table loop: a bit of the index leaves, the register shifts. */
  lemma TurnKeeps(h: bv32, c: bv32, x: bv32, t: nat)
    requires Xor(h, c) == Shifts(x, t)
    ensures Xor(Half(h), if Odd(h) then Xor(Shift(c), POLY) else Shift(c)) == Shifts(x, t + 1)
  {
    hide Xor, Half, Odd, Shifts;
    ShiftsLast(x, t);
    ShiftLinear(h, c);
    XorSwap(Half(h), Shift(c), POLY);
  }

  lemma XorZero(c: bv32)
    ensures Xor(c, 0) == c && Xor(0, c) == c
  {
  }

  /** The inner loop of makecrc. */
  method TableEntry(i: byte) returns (c: bv32)
    ensures c == Shifts(Word(i, 8), 8)
  {
    hide Xor, Half, Odd, Shift, Word;
    var x := Word(i, 8);
    SmallWord(i);
    var k: bv32 := x | 256;
    c := 0;
    ghost var t := 0;
    XorZero(x);
    while k != 1
      invariant t <= 8 && k == Halves(x | 256, t) && Xor(Halves(x, t), c) == Shifts(x, t)
      decreases 8 - t
    {
      MarkedBits(x, t);
      TurnKeeps(Halves(x, t), c, x, t);
      c := Shift(c);
      if Odd(k) {
        c := Xor(c, POLY);
      }
      k := Half(k);
      t := t + 1;
    }
    MarkedBits(x, t);
    XorZero(c);
  }

  lemma ZeroEntry()
    ensures Shifts(Word(0, 8), 8) == 0
  {
    hide Shift;
    assert Word(0, 2) == 0;
    assert Word(0, 4) == 0;
    assert Word(0, 6) == 0;
    assert Word(0, 8) == 0;
    assert Shift(0) == 0 by { ZeroStep(); }
    assert Shifts(0, 2) == 0;
    assert Shifts(0, 4) == 0;
    assert Shifts(0, 6) == 0;
  }

  lemma ZeroStep()
    ensures Shift(0) == 0
  {
  }

  ghost predicate IsTable(tab: seq<bv32>) {
    |tab| == 256 && forall i: byte :: tab[i] == Shifts(Word(i, 8), 8)
  }

  lemma HighBytes(c: bv32, w: bv32)
    requires w & 0xffffff00 == 0
    ensures Xor(c, w) >> 8 == c >> 8
  {
  }

  /** The table step is one byte of the bit-at-a-time register. */
  lemma TableStep(tab: seq<bv32>, c: bv32, x: byte)
    requires IsTable(tab)
    ensures Xor(tab[LowIndex(Xor(c, Word(x, 8)))], c >> 8) == Feed(c, x)
  {
    hide Xor, Shifts, Word, LowIndex;
    var v := Xor(c, Word(x, 8));
    SmallWord(x);
    HighBytes(c, Word(x, 8));
    ByteSplit(v);
  }

  /** Feeding a message in pieces is feeding it at once. */
  lemma {:induction false} RegisterConcat(c: bv32, s: seq<byte>, t: seq<byte>)
    ensures Register(c, s + t) == Register(Register(c, s), t)
  {
    hide Feed;
    if |t| == 0 {
      assert s + t == s;
    } else {
      RegisterConcat(c, s, t[..|t| - 1]);
      assert (s + t)[..|s + t| - 1] == s + t[..|t| - 1];
    }
  }

  /** The table and the static shift register of updcrc. */
  class Checksum {
    const tab: array<bv32>
    var crc: bv32

    ghost predicate Valid()
      reads this, tab
    {
      IsTable(tab[..])
    }

    /** makecrc, and the initial register. */
    constructor ()
      ensures Valid() && fresh(tab) && crc == START
    {
      crc := START;
      tab := new bv32[256];
      new;
      hide Shifts, Word;
      tab[0] := 0;
      ZeroEntry();
      for i := 1 to 256
        invariant crc == START && forall j :: 0 <= j < i ==> tab[j] == Shifts(Word(j, 8), 8)
      {
        tab[i] := TableEntry(i);
      }
    }

    /** updcrc without a buffer: the register starts again. */
    method Reset() returns (r: bv32)
      requires Valid()
      modifies `crc
      ensures crc == START && r == Crc32([])
    {
      crc := START;
      r := Xor(crc, START);
      assert Register(START, []) == START;
    }

    /** updcrc(s, n). */
    method Update(s: seq<byte>) returns (r: bv32)
      requires Valid()
      modifies `crc
      ensures crc == Register(old(crc), s) && r == Xor(crc, START)
    {
      hide Feed, Word, LowIndex, Shifts, Xor;
      var c := crc;
      for i := 0 to |s|
        invariant c == Register(old(crc), s[..i])
      {
        TableStep(tab[..], c, s[i]);
        c := Xor(tab[LowIndex(Xor(c, Word(s[i], 8)))], c >> 8);
        assert s[..i + 1][..i] == s[..i];
      }
      assert s[..|s|] == s;
      crc := c;
      r := Xor(c, START);
    }
  }

  /** For every message and every way of cutting it into calls, the last call's result is its CRC. */
  lemma {:induction false} AnySplit(parts: seq<seq<byte>>)
    ensures Pieces(START, parts) == Register(START, Joined(parts))
  {
    if |parts| > 0 {
      AnySplit(parts[..|parts| - 1]);
      RegisterConcat(START, Joined(parts[..|parts| - 1]), parts[|parts| - 1]);
    }
  }

  function Joined(parts: seq<seq<byte>>): seq<byte> {
    if |parts| == 0 then [] else Joined(parts[..|parts| - 1]) + parts[|parts| - 1]
  }

  /** The register after one update for each piece. */
  function Pieces(c: bv32, parts: seq<seq<byte>>): bv32 {
    if |parts| == 0 then c else Register(Pieces(c, parts[..|parts| - 1]), parts[|parts| - 1])
  }
}
