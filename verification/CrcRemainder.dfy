/** The register of the CRC as the remainder of a division of polynomials over the integers modulo 2 (zBoot/misc.c). */
module CrcRemainder {
  import opened Basics
  import opened Crc

  /** A polynomial: the exponents whose coefficient is one. */
  type Poly = set<nat>

  function Plus(a: Poly, b: Poly): Poly {
    (a - b) + (b - a)
  }

  /** Times `x^k`. */
  function Times(a: Poly, k: nat): Poly {
    set e: nat | e in a :: e + k
  }

  /** The generator of section 8 of RFC 1952. */
  const GENERATOR: Poly := {32, 26, 23, 22, 16, 12, 11, 10, 8, 7, 5, 4, 2, 1, 0}

  /** The polynomial with these coefficients, the highest first. */
  ghost function PolyOf(bits: seq<bool>): Poly {
    if bits == [] then {} else Plus(Times(PolyOf(bits[..|bits| - 1]), 1), if bits[|bits| - 1] then {0} else {})
  }

  /** Its product with another. */
  ghost function Product(bits: seq<bool>, p: Poly): Poly {
    if bits == [] then {} else Plus(Times(Product(bits[..|bits| - 1], p), 1), if bits[|bits| - 1] then p else {})
  }

  lemma PlusIn(a: Poly, b: Poly, e: nat)
    ensures e in Plus(a, b) <==> (e in a) != (e in b)
  {
  }

  lemma TimesIn(a: Poly, k: nat, e: nat)
    ensures e in Times(a, k) <==> e >= k && e - k in a
  {
    if e >= k && e - k in a { assert (e - k) + k in Times(a, k); }
  }

  // ---------------------------------------------------------------- the register as a polynomial

  /** Bit `k` of a word, the lowest first. */
  predicate Bit(c: bv32, k: nat) {
    Odd(Halves(c, k))
  }

  /** The register read as a polynomial: its lowest bit is the coefficient of `x^31`. */
  ghost function Residue(c: bv32): Poly {
    set e: nat | e < 32 && Coefficient(c, e)
  }

  predicate Coefficient(c: bv32, e: nat)
    requires e < 32
  {
    Bit(c, 31 - e)
  }

  lemma {:induction false} HalvesOfHalf(c: bv32, k: nat)
    ensures Halves(Half(c), k) == Halves(c, k + 1)
  {
    hide Half;
    if k > 0 { HalvesOfHalf(c, k - 1); }
  }

  lemma {:induction false} HalvesSum(c: bv32, m: nat, n: nat)
    ensures Halves(Halves(c, m), n) == Halves(c, m + n)
    decreases n
  {
    hide Half;
    if n > 0 { HalvesSum(c, m, n - 1); }
  }

  lemma {:induction false} HalvesXor(a: bv32, b: bv32, k: nat)
    ensures Halves(Xor(a, b), k) == Xor(Halves(a, k), Halves(b, k))
  {
    hide Half, Xor;
    if k > 0 {
      HalvesXor(a, b, k - 1);
      XorHalf(Halves(a, k - 1), Halves(b, k - 1));
    }
  }

  lemma BitXor(a: bv32, b: bv32, k: nat)
    ensures Bit(Xor(a, b), k) <==> Bit(a, k) != Bit(b, k)
  {
    hide Half, Xor, Odd;
    HalvesXor(a, b, k);
    XorHalf(Halves(a, k), Halves(b, k));
  }

  /** A word without its lowest byte. */
  function Rest(c: bv32): bv32 {
    c >> 8
  }

  lemma HalvesByte(c: bv32)
    ensures Halves(c, 8) == Rest(c)
  {
    hide Halves;
    HalvesAre(c, 8);
  }

  /** Where the bits of a word are, byte by byte. */
  lemma HalvesBytes(c: bv32)
    ensures Halves(c, 0) == c && Halves(c, 8) == Rest(c) && Halves(c, 16) == Rest(Rest(c))
    ensures Halves(c, 24) == Rest(Rest(Rest(c))) && Halves(c, 32) == Rest(Rest(Rest(Rest(c))))
  {
    NoHalves(c);
    hide Halves, Rest;
    HalvesByte(c);
    HalvesByte(Rest(c));
    HalvesByte(Rest(Rest(c)));
    HalvesByte(Rest(Rest(Rest(c))));
    HalvesSum(c, 8, 8);
    HalvesSum(c, 16, 8);
    HalvesSum(c, 24, 8);
  }

  lemma FourBytes(c: bv32)
    ensures !Odd(Rest(Rest(Rest(Rest(c)))))
  {
  }

  lemma NoTopBit(c: bv32)
    ensures !Bit(c, 32)
  {
    hide Halves, Rest;
    HalvesBytes(c);
    FourBytes(c);
  }

  /** The bits of the pattern are the terms of the generator below the first. */
  lemma GeneratorBits(e: nat)
    requires e < 32
    ensures Bit(POLY, 31 - e) <==> e in GENERATOR
  {
    hide Halves, Rest, Odd, Down;
    var k, t := (31 - e) / 8, (31 - e) % 8;
    HalvesBytes(POLY);
    HalvesSum(POLY, 8 * k, t);
    HalvesAre(Halves(POLY, 8 * k), t);
    PatternBytes();
    PatternBits(e, Halves(POLY, 8 * k), t);
  }

  lemma PatternBytes()
    ensures Rest(POLY) == 0xedb883 && Rest(Rest(POLY)) == 0xedb8 && Rest(Rest(Rest(POLY))) == 0xed
  {
  }

  lemma NoHalves(c: bv32)
    ensures Halves(c, 0) == c
  {
  }

  lemma PatternBits(e: nat, c: bv32, t: nat)
    requires e < 32 && t == (31 - e) % 8
    requires c == if e >= 24 then 0xedb88320 else if e >= 16 then 0xedb883 else if e >= 8 then 0xedb8 else 0xed
    ensures Odd(Down(c, t)) <==> e in GENERATOR
  {
  }

  // ---------------------------------------------------------------- one bit

  /** One bit of the message into the register. */
  function Step(c: bv32, b: bool): bv32 {
    Shift(Xor(c, if b then 1 else 0))
  }

  lemma OneBit(b: bool, k: nat)
    ensures Bit(if b then 1 else 0, k) <==> b && k == 0
  {
    if k > 0 {
      HalvesOfHalf(if b then 1 else 0, k - 1);
      assert Half(if b then 1 else 0) == 0;
      ZeroBits(k - 1);
    }
  }

  lemma {:induction false} ZeroBits(k: nat)
    ensures Halves(0, k) == 0
  {
    if k > 0 { ZeroBits(k - 1); }
  }

  /** The coefficient that leaves the register, and the others after a step. */
  lemma StepBits(c: bv32, b: bool, e: nat)
    requires e < 32
    ensures var out := Bit(c, 0) != b;
      Bit(Step(c, b), 31 - e) <==> (e > 0 && Bit(c, 32 - e)) != (out && e in GENERATOR)
  {
    hide Halves, Xor, Half, Odd, Shift;
    var w: bv32 := if b then 1 else 0;
    var d := Xor(c, w);
    BitXor(c, w, 32 - e);
    OneBit(b, 32 - e);
    BitXor(c, w, 0);
    OneBit(b, 0);
    NoTopBit(c);
    HalvesOfHalf(d, 31 - e);
    NoHalves(d);
    ShiftIs(d);
    BitXor(Half(d), POLY, 31 - e);
    GeneratorBits(e);
  }

  lemma ShiftIs(d: bv32)
    ensures Shift(d) == if Odd(d) then Xor(Half(d), POLY) else Half(d)
  {
  }

  /** Division of a dividend that has got one more coefficient: the quotient gets one more too. */
  lemma StepDivides(dividend: Poly, q: seq<bool>, c: bv32, b: bool)
    requires dividend == Plus(Product(q, GENERATOR), Residue(c))
    ensures var out := Bit(c, 0) != b;
      Plus(Times(dividend, 1), if b then {32} else {}) == Plus(Product(q + [out], GENERATOR), Residue(Step(c, b)))
  {
    hide Step, Bit, Product, Plus, Times;
    var out := Bit(c, 0) != b;
    NextProduct(q, out, GENERATOR);
    var p := Product(q, GENERATOR);
    var l: Poly, g: Poly := if b then {32} else {}, if out then GENERATOR else {};
    forall e: nat ensures e in Plus(Times(dividend, 1), l) <==> e in Plus(Plus(Times(p, 1), g), Residue(Step(c, b))) {
      PlusIn(Times(dividend, 1), l, e);
      TimesIn(dividend, 1, e);
      if e > 0 { PlusIn(p, Residue(c), e - 1); }
      PlusIn(Plus(Times(p, 1), g), Residue(Step(c, b)), e);
      PlusIn(Times(p, 1), g, e);
      TimesIn(p, 1, e);
      if e < 32 { StepBits(c, b, e); }
    }
    assert Plus(Times(dividend, 1), l) == Plus(Plus(Times(p, 1), g), Residue(Step(c, b)));
  }

  lemma NextProduct(q: seq<bool>, b: bool, p: Poly)
    ensures Product(q + [b], p) == Plus(Times(Product(q, p), 1), if b then p else {})
  {
    assert (q + [b])[..|q|] == q;
  }

  // ---------------------------------------------------------------- a message

  /** The bits of a byte, the lowest first. */
  function ByteBits(x: nat, n: nat): seq<bool>
    decreases n
  {
    if n == 0 then [] else [x % 2 == 1] + ByteBits(x / 2, n - 1)
  }

  function MessageBits(s: seq<byte>): seq<bool> {
    if s == [] then [] else MessageBits(s[..|s| - 1]) + ByteBits(s[|s| - 1], 8)
  }

  function Serial(c: bv32, bits: seq<bool>): bv32 {
    if bits == [] then c else Step(Serial(c, bits[..|bits| - 1]), bits[|bits| - 1])
  }

  lemma {:induction false} SerialConcat(c: bv32, a: seq<bool>, b: seq<bool>)
    ensures Serial(c, a + b) == Serial(Serial(c, a), b)
  {
    hide Step;
    if b == [] {
      assert a + b == a;
    } else {
      assert (a + b)[..|a + b| - 1] == a + b[..|b| - 1];
      SerialConcat(c, a, b[..|b| - 1]);
    }
  }

  lemma OneSerial(c: bv32, b: bool)
    ensures Serial(c, [b]) == Step(c, b)
  {
    hide Step;
    assert [b][..0] == [];
    assert Serial(c, []) == c;
  }

  lemma MasksAre(n: nat)
    requires n <= 8
    ensures OnesMask(n) & 0xffffff00 == 0
  {
    assert OnesMask(1) == 1;
    assert OnesMask(2) == 3;
    assert OnesMask(3) == 7;
    assert OnesMask(4) == 15;
    assert OnesMask(5) == 31;
    assert OnesMask(6) == 63;
    assert OnesMask(7) == 127;
    assert OnesMask(8) == 255;
  }

  lemma PushPop(bit: bool, w: bv32, m: bv32)
    requires And(w, m) == w && m & 0xffffff00 == 0
    ensures Push(bit, w) == Xor(if bit then 1 else 0, w << 1)
    ensures Half(w << 1) == w && !Odd(w << 1)
  {
  }

  /** The rest of a byte waits while its lowest bit goes into the register. */
  lemma ByteStep(c: bv32, x: nat, n: nat)
    requires 0 < n <= 8
    ensures Shift(Xor(c, Word(x, n))) == Xor(Step(c, x % 2 == 1), Word(x / 2, n - 1))
  {
    hide Xor, Shift, Half, Odd, Push, OnesMask;
    var bit, w := x % 2 == 1, Word(x / 2, n - 1);
    var b: bv32 := if bit then 1 else 0;
    MasksAre(n - 1);
    WordBound(x / 2, n - 1, OnesMask(n - 1));
    PushPop(bit, w, OnesMask(n - 1));
    XorSwap(c, b, w << 1);
    ShiftLinear(Xor(c, b), w << 1);
    ShiftIs(w << 1);
  }

  lemma {:induction false} BitsFeed(c: bv32, x: nat, n: nat)
    requires n <= 8
    ensures Shifts(Xor(c, Word(x, n)), n) == Serial(c, ByteBits(x, n))
    decreases n
  {
    hide Xor, Shift, Word, Step;
    if n == 0 {
      XorZero(c);
      assert Word(x, 0) == 0 by { NoWord(x); }
    } else {
      ByteStep(c, x, n);
      BitsFeed(Step(c, x % 2 == 1), x / 2, n - 1);
      SerialConcat(c, [x % 2 == 1], ByteBits(x / 2, n - 1));
      OneSerial(c, x % 2 == 1);
    }
  }

  lemma NoWord(x: nat)
    ensures Word(x, 0) == 0
  {
  }

  lemma {:induction false} RegisterSerial(c: bv32, s: seq<byte>)
    ensures Register(c, s) == Serial(c, MessageBits(s))
  {
    hide Shifts, Step;
    if s != [] {
      var n := |s| - 1;
      RegisterSerial(c, s[..n]);
      BitsFeed(Register(c, s[..n]), s[n], 8);
      SerialConcat(c, MessageBits(s[..n]), ByteBits(s[n], 8));
    }
  }

  // ---------------------------------------------------------------- the remainder

  /** The message times `x^32`, with all of its first 32 coefficients turned over. */
  ghost function Dividend(bits: seq<bool>): Poly {
    Plus(Times(Residue(START), |bits|), Times(PolyOf(bits), 32))
  }

  lemma NextDividend(bits: seq<bool>, b: bool)
    ensures Dividend(bits + [b]) == Plus(Times(Dividend(bits), 1), if b then {32} else {})
  {
    hide Residue, Plus, Times;
    var n, r := |bits|, Residue(START);
    var l: Poly, l32: Poly := if b then {0} else {}, if b then {32} else {};
    assert (bits + [b])[..n] == bits;
    assert PolyOf(bits + [b]) == Plus(Times(PolyOf(bits), 1), l);
    hide PolyOf;
    forall e: nat ensures e in Dividend(bits + [b]) <==> e in Plus(Times(Dividend(bits), 1), l32) {
      PlusIn(Times(r, n + 1), Times(PolyOf(bits + [b]), 32), e);
      TimesIn(r, n + 1, e);
      TimesIn(PolyOf(bits + [b]), 32, e);
      if e >= 32 { PlusIn(Times(PolyOf(bits), 1), l, e - 32); TimesIn(PolyOf(bits), 1, e - 32); }
      PlusIn(Times(Dividend(bits), 1), l32, e);
      TimesIn(Dividend(bits), 1, e);
      if e > 0 {
        PlusIn(Times(r, n), Times(PolyOf(bits), 32), e - 1);
        TimesIn(r, n, e - 1);
        TimesIn(PolyOf(bits), 32, e - 1);
      }
    }
    assert Dividend(bits + [b]) == Plus(Times(Dividend(bits), 1), l32);
  }

  lemma NothingYet()
    ensures Dividend([]) == Plus(Product([], GENERATOR), Residue(START)) && Serial(START, []) == START
  {
    hide Residue, Plus, Times;
    forall e: nat ensures e in Dividend([]) <==> e in Plus({}, Residue(START)) {
      PlusIn(Times(Residue(START), 0), Times({}, 32), e);
      TimesIn(Residue(START), 0, e);
      TimesIn({}, 32, e);
      PlusIn({}, Residue(START), e);
    }
    assert Dividend([]) == Plus({}, Residue(START));
  }

  lemma {:induction false} SerialDivides(bits: seq<bool>) returns (q: seq<bool>)
    ensures |q| == |bits| && Dividend(bits) == Plus(Product(q, GENERATOR), Residue(Serial(START, bits)))
  {
    hide Step, Dividend, Residue, Plus, Product, Bit;
    if bits == [] {
      q := [];
      NothingYet();
    } else {
      var n := |bits| - 1;
      var b, c := bits[n], Serial(START, bits[..n]);
      q := SerialDivides(bits[..n]);
      assert bits == bits[..n] + [b];
      NextDividend(bits[..n], b);
      StepDivides(Dividend(bits[..n]), q, c, b);
      q := q + [Bit(c, 0) != b];
    }
  }

  lemma StartBits(e: nat)
    requires e < 32
    ensures Bit(START, e)
  {
    hide Halves, Rest, Down, Odd;
    HalvesBytes(START);
    HalvesSum(START, e / 8 * 8, e % 8);
    HalvesAre(Halves(START, e / 8 * 8), e % 8);
    StartBytes(Halves(START, e / 8 * 8), e % 8);
  }

  lemma StartBytes(c: bv32, t: nat)
    requires t < 8 && (c == START || c == Rest(START) || c == Rest(Rest(START)) || c == Rest(Rest(Rest(START))))
    ensures Odd(Down(c, t))
  {
  }

  lemma CrcBits(s: seq<byte>, e: nat)
    requires e < 32
    ensures e in Residue(Crc32(s)) <==> e !in Residue(Register(START, s))
    ensures e in Residue(START)
  {
    hide Register, Bit, Xor;
    BitXor(Register(START, s), START, 31 - e);
    StartBits(31 - e);
  }

  /** What makes the CRC: the message polynomial times `x^32`, with its first 32 coefficients turned over, divided by
      the generator leaves the register as its remainder, and the CRC is that with all coefficients turned over. */
  lemma CrcIsRemainder(s: seq<byte>) returns (q: seq<bool>)
    ensures Dividend(MessageBits(s)) == Plus(Product(q, GENERATOR), Residue(Register(START, s)))
    ensures forall e :: e in Residue(Register(START, s)) ==> e < 32
    ensures forall e: nat :: e < 32 ==> (e in Residue(Crc32(s)) <==> e !in Residue(Register(START, s)))
    ensures forall e: nat :: e in Residue(START) <==> e < 32
  {
    hide Dividend, Plus, Product, Register, Crc32, Coefficient;
    RegisterSerial(START, s);
    q := SerialDivides(MessageBits(s));
    forall e: nat | e < 32
      ensures (e in Residue(Crc32(s)) <==> e !in Residue(Register(START, s))) && e in Residue(START)
    {
      CrcBits(s, e);
    }
  }
}
