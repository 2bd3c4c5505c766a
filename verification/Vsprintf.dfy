/** Numbers printed and read back (kernel/vsprintf.c). */
module Vsprintf {
  import opened Basics

  const WORD: int := 0x1_0000_0000       // int and unsigned long have 32 bits
  const UPPER: string := "0123456789ABCDEFGHIJKLMNOPQRSTUVWXYZ"
  const LOWER: string := "0123456789abcdefghijklmnopqrstuvwxyz"

  datatype Flags = Flags(zeropad: bool, sign: bool, plus: bool, space: bool, left: bool, special: bool, small: bool)

  function Table(small: bool): string {
    if small then LOWER else UPPER
  }

  // ---------------------------------------------------------------- what is printed

  /** A digit of either table. */
  function Digit(small: bool, d: nat): char
    requires d < 36
  {
    Table(small)[d]
  }

  /** The tables hold the figures and then the letters. */
  lemma TableIs(small: bool, d: nat)
    requires d < 36
    ensures |Table(small)| == 36
    ensures Digit(small, d) as int == if d < 10 then '0' as int + d else (if small then 'a' else 'A') as int + d - 10
  {
  }

  /** A number in a base, the highest digit first. */
  function Digits(n: nat, base: nat, small: bool): string
    requires 2 <= base <= 36
    decreases n
  {
    if n < base then [Digit(small, n)] else Digits(n / base, base, small) + [Digit(small, n % base)]
  }

  /** The magnitude that is printed. */
  function Magnitude(num: int, f: Flags): nat
    requires -0x8000_0000 <= num < 0x8000_0000
  {
    if f.sign && num < 0 then -num else if num < 0 then num + WORD else num
  }

  function SignOf(num: int, f: Flags): string {
    if f.sign && num < 0 then "-" else if f.plus then "+" else if f.space then " " else ""
  }

  function Prefix(base: int, f: Flags): string {
    if f.special && base == 8 then "0" else if f.special && base == 16 then ['0', if f.small then 'x' else 'X'] else ""
  }

  function Rep(c: char, n: int): string {
    if n <= 0 then "" else Rep(c, n - 1) + [c]
  }

  lemma {:induction false} RepLength(c: char, n: int)
    ensures |Rep(c, n)| == Max(n, 0) && forall i :: 0 <= i < |Rep(c, n)| ==> Rep(c, n)[i] == c
    decreases Max(n, 0)
  {
    if n > 0 { RepLength(c, n - 1); }
  }

  /** The room that is left to pad. */
  function Pad(num: int, base: nat, width: int, precision: int, f: Flags): int
    requires 2 <= base <= 36 && -0x8000_0000 <= num < 0x8000_0000
  {
    width - |SignOf(num, f)| - |Prefix(base, f)| - Max(|Digits(Magnitude(num, f), base, f.small)|, precision)
  }

  /** Spaces, sign, prefix, zeros, digits, spaces. */
  function Printed(num: int, base: nat, width: int, precision: int, f: Flags): string
    requires 2 <= base <= 36 && -0x8000_0000 <= num < 0x8000_0000
  {
    var d, pad := Digits(Magnitude(num, f), base, f.small), Pad(num, base, width, precision, f);
    Lead(f, pad) + SignOf(num, f) + Prefix(base, f) + Fill(f, pad) + Rep('0', precision - |d|) + d + Trail(f, pad)
  }

  /** Padding before the sign, behind the prefix and at the end. */
  function Lead(f: Flags, pad: int): string {
    if f.left || f.zeropad then "" else Rep(' ', pad)
  }

  function Fill(f: Flags, pad: int): string {
    if !f.left && f.zeropad then Rep('0', pad) else ""
  }

  function Trail(f: Flags, pad: int): string {
    if f.left then Rep(' ', pad) else ""
  }

  /** Whatever the flags, the output is as wide as asked for, or as sign, prefix and digits need. */
  lemma PrintedLength(num: int, base: nat, width: int, precision: int, f: Flags)
    requires 2 <= base <= 36 && -0x8000_0000 <= num < 0x8000_0000
    ensures |Printed(num, base, width, precision, f)|
         == Max(width, |SignOf(num, f)| + |Prefix(base, f)| + Max(|Digits(Magnitude(num, f), base, f.small)|,
           precision))
  {
    hide Digits, SignOf, Prefix, Rep;
    var d, pad := Digits(Magnitude(num, f), base, f.small), Pad(num, base, width, precision, f);
    RepLength(' ', pad);
    RepLength('0', pad);
    RepLength('0', precision - |d|);
  }

  // ---------------------------------------------------------------- number

  method Repeat(str: string, c: char, n: int) returns (r: string)
    ensures r == str + Rep(c, n)
  {
    r := str;
    var i := 0;
    while i < n
      invariant (0 <= i <= n || (n < 0 && i == 0)) && r == str + Rep(c, i)
    {
      assert Rep(c, i + 1) == Rep(c, i) + [c];
      r := r + [c];
      i := i + 1;
    }
    if n < 0 { assert Rep(c, n) == Rep(c, 0); }
  }

  function Reversed(s: string): string {
    if s == "" then "" else Reversed(s[1..]) + [s[0]]
  }

  lemma {:induction false} ReversedAppend(s: string, c: char)
    ensures Reversed(s + [c]) == [c] + Reversed(s)
  {
    if s == "" {
      assert s + [c] == [c] && [c][1..] == "";
    } else {
      assert (s + [c])[1..] == s[1..] + [c];
      ReversedAppend(s[1..], c);
    }
  }

  lemma DigitsStep(n: nat, base: nat, small: bool, q: nat, d: nat)
    requires 2 <= base <= 36 && n > 0 && q == n / base && d == n % base
    ensures d < 36 && q < n
    ensures Digits(n, base, small) == (if q == 0 then "" else Digits(q, base, small)) + [Digit(small, d)]
  {
    Smaller(n, base);
    assert "" + [Digit(small, d)] == [Digit(small, d)];
  }

  /** The digits still to be found of a number. */
  function Higher(n: nat, base: nat, small: bool): string
    requires 2 <= base <= 36
  {
    if n == 0 then "" else Digits(n, base, small)
  }

  /** The digits of a number, the lowest first, as they are found. */
  method DigitsBackwards(n: nat, base: nat, small: bool) returns (tmp: string)
    requires 2 <= base <= 36
    ensures Reversed(tmp) == Digits(n, base, small)
  {
    hide Digits, Reversed, Table;
    ZeroDigit(base, small);
    tmp := "";
    if n == 0 { return "0"; }
    NoneFound(Digits(n, base, small));
    var num: nat := n;
    while num != 0
      invariant Higher(num, base, small) + Reversed(tmp) == Digits(n, base, small)
      decreases num
    {
      var q: nat, d: nat := num / base, num % base;
      DigitsStep(num, base, small, q, d);
      ReversedAppend(tmp, Digit(small, d));
      Regroup(Higher(q, base, small), Digit(small, d), Reversed(tmp));
      tmp := tmp + [Digit(small, d)];
      num := q;
    }
  }

  lemma ZeroDigit(base: nat, small: bool)
    requires 2 <= base <= 36
    ensures Reversed("0") == Digits(0, base, small)
  {
    assert "0"[1..] == "";
    assert Digit(small, 0) == '0';
  }

  lemma NoneFound(s: string)
    ensures s + Reversed("") == s
  {
  }

  lemma Regroup(a: string, c: char, b: string)
    ensures a + [c] + b == a + ([c] + b)
  {
  }

  lemma Smaller(n: nat, base: nat)
    requires n > 0 && base >= 2
    ensures n / base < n && (n < base ==> n / base == 0 && n % base == n) && (n >= base ==> n / base > 0)
  {
  }

  /** The digits put out, the last found first. */
  method PutBackwards(str: string, tmp: string) returns (r: string)
    ensures r == str + Reversed(tmp)
  {
    r := str;
    var i := |tmp|;
    assert tmp[..|tmp|] == tmp;
    while i > 0
      invariant 0 <= i <= |tmp| && r + Reversed(tmp[..i]) == str + Reversed(tmp)
    {
      i := i - 1;
      assert tmp[..i + 1] == tmp[..i] + [tmp[i]];
      ReversedAppend(tmp[..i], tmp[i]);
      r := r + [tmp[i]];
    }
  }

  /** Padding put out at one of its three places, after which none is left. */
  method PutPad(str: string, c: char, size: int, here: bool) returns (r: string, left: int)
    ensures r == str + (if here then Rep(c, size) else "") && left == if here then -1 else size
  {
    r, left := str, size;
    if here {
      r := Repeat(str, c, size);
      left := -1;
    }
  }

  method PutPrefix(str: string, base: int, f: Flags) returns (r: string)
    ensures r == str + Prefix(base, f)
  {
    r := str;
    if f.special {
      if base == 8 {
        r := r + "0";
      } else if base == 16 {
        XDigit(f.small);
        r := r + ['0', Table(f.small)[33]];
      }
    }
  }

  lemma XDigit(small: bool)
    ensures Table(small)[33] == if small then 'x' else 'X'
  {
  }

  /** number up to its output: the sign, the digits, the precision and what is left to pad. */
  method Measure(num: int, base: nat, width: int, precision: int, f: Flags)
    returns (sign: string, tmp: string, prec: int, size: int)
    requires 2 <= base <= 36 && -0x8000_0000 <= num < 0x8000_0000
    ensures Reversed(tmp) == Digits(Magnitude(num, f), base, f.small) && |tmp| == |Reversed(tmp)|
    ensures prec == Max(|tmp|, precision) && size == Pad(num, base, width, precision, f) && sign == SignOf(num, f)
  {
    hide Digits, Reversed, Prefix;
    size, sign := width, "";
    var n: int := num;
    if f.sign && num < 0 {
      sign, n := "-", -num;
    } else if f.plus {
      sign := "+";
    } else if f.space {
      sign := " ";
    }
    if n < 0 { n := n + WORD; }
    if sign != "" { size := size - 1; }
    if f.special {
      if base == 16 { size := size - 2; } else if base == 8 { size := size - 1; }
    }
    PrefixLength(base, f);
    tmp := DigitsBackwards(n, base, f.small);
    ReversedLength(tmp);
    prec := precision;
    if |tmp| > prec { prec := |tmp|; }
    size := size - prec;
  }

  /** number: none for a base that cannot be, else what is to be printed. */
  method Number(num: int, base: int, width: int, precision: int, flags: Flags) returns (r: Option<string>)
    requires -0x8000_0000 <= num < 0x8000_0000
    ensures r == if 2 <= base <= 36 then Some(Printed(num, base, width, precision, flags)) else None
  {
    hide Digits, Rep, Reversed, Prefix, Magnitude, SignOf, Pad;
    if base < 2 || base > 36 { return None; }
    var zeropad := flags.zeropad && !flags.left;
    var c := if zeropad then '0' else ' ';
    var sign, tmp, prec, size := Measure(num, base, width, precision, flags);
    ghost var pad := size;
    NoRep('0', precision - |tmp|);
    NoRep('0', prec - |tmp|);
    NoRep(c, -1);
    NoRep(' ', -1);
    var str: string;
    str, size := PutPad("", ' ', size, !zeropad && !flags.left);
    str := str + sign;
    str := PutPrefix(str, base, flags);
    str, size := PutPad(str, c, size, !flags.left);
    str := Repeat(str, '0', prec - |tmp|);
    str := PutBackwards(str, tmp);
    str, size := PutPad(str, ' ', size, true);
    r := Some(str);
    PartsAgree(str, flags, pad, SignOf(num, flags), Prefix(base, flags), Rep('0', precision - |tmp|), Reversed(tmp));
  }

  lemma PrefixLength(base: int, f: Flags)
    ensures |Prefix(base, f)| == if f.special && base == 16 then 2 else if f.special && base == 8 then 1 else 0
  {
  }

  /** The pieces as they were put out are the pieces of the whole. */
  lemma PartsAgree(str: string, f: Flags, pad: int, sign: string, prefix: string, zeros: string, d: string)
    requires var lead := if !(f.zeropad && !f.left) && !f.left then Rep(' ', pad) else "";
      var fill := if !f.left then Rep(if f.zeropad then '0' else ' ', if f.zeropad then pad else -1) else "";
      str == "" + lead + sign + prefix + fill + zeros + d + Rep(' ', if f.left then pad else -1)
    ensures str == Lead(f, pad) + sign + prefix + Fill(f, pad) + zeros + d + Trail(f, pad)
  {
    hide Rep;
    NoRep(' ', -1);
    assert "" + Lead(f, pad) == Lead(f, pad);
  }

  lemma NoRep(c: char, n: int)
    ensures n <= 0 ==> Rep(c, n) == ""
  {
  }

  lemma {:induction false} ReversedLength(s: string)
    ensures |Reversed(s)| == |s|
  {
    if s != "" { ReversedLength(s[1..]); }
  }

  // ---------------------------------------------------------------- simple_strtoul

  /** The value of a hexadecimal digit, or -1. */
  function DigitValue(c: char): int {
    if '0' <= c <= '9' then c as int - '0' as int
    else if 'a' <= c <= 'f' then c as int - 'a' as int + 10
    else if 'A' <= c <= 'F' then c as int - 'A' as int + 10
    else -1
  }

  /** Place `i` of a string, with the NUL behind it. */
  function At(s: string, i: nat): char {
    if i < |s| then s[i] else '\0'
  }

  predicate IsDigit(s: string, i: nat, base: int) {
    0 <= DigitValue(At(s, i)) < base
  }

  /** The number a string of digits stands for. */
  function Value(s: string, base: nat): int {
    if s == "" then 0 else Join(Value(s[..|s| - 1], base), base, DigitValue(s[|s| - 1]))
  }

  /** A value with one more digit behind it. */
  function Join(v: int, base: int, d: int): int {
    v * base + d
  }

  /** The digits from `start` up to `end`, and no digit behind them. */
  ghost predicate DigitsUpTo(s: string, start: nat, end: nat, base: int) {
    start <= end <= |s| && (forall i :: start <= i < end ==> IsDigit(s, i, base)) && !IsDigit(s, end, base)
  }

  /** The base, and where the digits begin. */
  function BaseOf(s: string, base: nat): (nat, nat) {
    if base != 0 then (base, 0)
    else if At(s, 0) != '0' then (10, 0)
    else if At(s, 1) == 'x' && DigitValue(At(s, 2)) >= 0 then (16, 2)
    else (8, 1)
  }

  /** simple_strtoul: the value, in 32 bits, of the longest run of digits. */
  method SimpleStrtoul(s: string, base0: nat) returns (result: int, end: nat)
    ensures DigitsUpTo(s, BaseOf(s, base0).1, end, BaseOf(s, base0).0)
    ensures result == Value(s[BaseOf(s, base0).1..end], BaseOf(s, base0).0) % WORD
  {
    var base, cp := base0, 0;
    if base == 0 {
      base := 10;
      if At(s, cp) == '0' {
        base := 8;
        cp := cp + 1;
        if At(s, cp) == 'x' && DigitValue(At(s, cp + 1)) >= 0 {
          cp := cp + 1;
          base := 16;
        }
      }
    }
    result, end := ScanDigits(s, cp, base);
  }

  /** The value of the digits from `start` on. */
  method ScanDigits(s: string, start: nat, base: nat) returns (result: int, end: nat)
    requires start <= |s|
    ensures DigitsUpTo(s, start, end, base) && result == Value(s[start..end], base) % WORD
  {
    NoValue(base);
    NulNoDigit(s, base);
    hide Value, DigitValue, Join;
    result, end := 0, start;
    assert s[start..end] == "";
    while IsDigit(s, end, base)
      invariant start <= end <= |s| && forall i :: start <= i < end ==> IsDigit(s, i, base)
      invariant result == Value(s[start..end], base) % WORD
      decreases |s| - end
    {
      ValueNext(s[start..end], s[end], base);
      assert s[start..end + 1] == s[start..end] + [s[end]];
      NextMod(Value(s[start..end], base), base, DigitValue(s[end]));
      result := Join(result, base, DigitValue(At(s, end))) % WORD;
      end := end + 1;
    }
  }

  lemma NulNoDigit(s: string, base: int)
    ensures !IsDigit(s, |s|, base)
  {
  }

  lemma ValueNext(s: string, c: char, base: nat)
    ensures Value(s + [c], base) == Join(Value(s, base), base, DigitValue(c))
  {
    hide Join;
    assert (s + [c])[..|s|] == s;
  }

  lemma NextMod(v: int, base: int, d: int)
    ensures Join(v % WORD, base, d) % WORD == Join(v, base, d) % WORD
  {
    var q := v / WORD;
    assert v == WORD * q + v % WORD;
    assert v * base + d == v % WORD * base + d + WORD * (q * base) by { Distribute(q, v % WORD, base); }
    Multiple(v % WORD * base + d, q * base);
  }

  lemma Distribute(q: int, r: int, base: int)
    ensures (WORD * q + r) * base == r * base + WORD * (q * base)
  {
  }

  lemma Multiple(x: int, k: int)
    ensures (x + WORD * k) % WORD == x % WORD
  {
  }

  // ---------------------------------------------------------------- read back

  lemma DigitReads(small: bool, d: nat)
    requires d < 16
    ensures DigitValue(Digit(small, d)) == d
  {
    var t := if small then "0123456789abcdef" else "0123456789ABCDEF";
    assert Digit(small, d) == t[d];
  }

  /** One more digit behind some others. */
  lemma DigitBehind(s: string, small: bool, d: nat, base: nat)
    requires AllDigits(s, base) && d < base && d < 16
    ensures AllDigits(s + [Digit(small, d)], base)
    ensures Value(s + [Digit(small, d)], base) == Join(Value(s, base), base, d)
  {
    DigitReads(small, d);
    hide DigitValue, Value, Join, Digit;
    ValueNext(s, Digit(small, d), base);
  }

  lemma DigitDoesNot(small: bool, d: nat)
    requires 16 <= d < 36
    ensures DigitValue(Digit(small, d)) < 0
  {
    var t := if small then "ghijklmnopqrstuvwxyz" else "GHIJKLMNOPQRSTUVWXYZ";
    assert Digit(small, d) == t[d - 16];
  }

  /** Every digit of a number is one that strtoul knows. */
  predicate Legible(n: nat, base: nat)
    requires base >= 2
  {
    n % base < 16 && (n < base || Legible(n / base, base))
  }

  /** The number that the digits before the first one strtoul does not know stand for. */
  function Legibly(n: nat, base: nat): nat
    requires base >= 2
  {
    if Legible(n, base) then n else if n < base then 0 else Legibly(n / base, base)
  }

  lemma {:induction false} LegibleUpTo16(n: nat, base: nat)
    requires 2 <= base <= 16
    ensures Legible(n, base)
  {
    if n >= base {
      Smaller(n, base);
      LegibleUpTo16(n / base, base);
    }
  }

  lemma {:induction false} LegiblyLess(n: nat, base: nat)
    requires base >= 2
    ensures Legibly(n, base) <= n && (Legibly(n, base) == n <==> Legible(n, base))
  {
    if n >= base {
      Smaller(n, base);
      LegiblyLess(n / base, base);
    }
  }

  lemma LegibleStep(n: nat, base: nat, q: nat, d: nat)
    requires base >= 2 && q == n / base && d == n % base
    ensures Legible(n, base) <==> d < 16 && (n < base || Legible(q, base))
    ensures Legibly(n, base) == if Legible(n, base) then n else if n < base then 0 else Legibly(q, base)
    ensures Legible(q, base) ==> Legibly(q, base) == q
  {
  }

  lemma JoinStep(n: nat, base: nat, q: nat, d: nat)
    requires base >= 2 && q == n / base && d == n % base
    ensures Join(q, base, d) == n && (n < base ==> q == 0) && d < base
  {
    DivMod(n, base);
    if n > 0 { Smaller(n, base); }
  }

  lemma NothingYet(base: nat)
    ensures AllDigits("", base) && Stops("") && Value("", base) == 0
  {
  }

  /** The digits of a number, cut before the first that strtoul does not know. */
  lemma {:induction false} DigitsRead(n: nat, base: nat, small: bool) returns (a: string, b: string)
    requires 2 <= base <= 36
    ensures Digits(n, base, small) == a + b && AllDigits(a, base) && Stops(b) && Value(a, base) == Legibly(n, base)
    ensures b == "" <==> Legible(n, base)
    decreases n
  {
    hide Digits, Value, AllDigits, Stops, Legible, Legibly, Join, DigitValue, Digit;
    var q: nat, d: nat := n / base, n % base;
    LegibleStep(n, base, q, d);
    JoinStep(n, base, q, d);
    a, b := "", "";
    NothingYet(base);
    if n >= base {
      Smaller(n, base);
      a, b := DigitsRead(q, base, small);
    }
    DigitsLast(n, base, small, a + b);
    a, b := OneDigitMore(a, b, base, small, d);
  }

  lemma OneDigitMore(a: string, b: string, base: nat, small: bool, d: nat) returns (a': string, b': string)
    requires AllDigits(a, base) && Stops(b) && d < base <= 36
    ensures a + b + [Digit(small, d)] == a' + b' && AllDigits(a', base) && Stops(b')
    ensures b' == "" <==> b == "" && d < 16
    ensures Value(a', base) == if b == "" && d < 16 then Join(Value(a, base), base, d) else Value(a, base)
  {
    hide Value, AllDigits, Stops, Join, DigitValue, Digit;
    var c := Digit(small, d);
    a', b' := a, b + [c];
    if b == "" && d < 16 {
      DigitBehind(a, small, d, base);
      a', b' := a + [c], "";
      NothingYet(base);
    } else {
      if d >= 16 { DigitDoesNot(small, d); }
      StopsStill(b, c);
    }
  }

  lemma DigitsLast(n: nat, base: nat, small: bool, s: string)
    requires 2 <= base <= 36 && s == if n < base then "" else Digits(n / base, base, small)
    ensures Digits(n, base, small) == s + [Digit(small, n % base)]
  {
    assert n < base ==> n % base == n;
  }

  lemma StopsStill(b: string, c: char)
    requires Stops(b) && (b == "" ==> DigitValue(c) < 0)
    ensures Stops(b + [c])
  {
  }

  lemma DivMod(n: nat, base: nat)
    requires base >= 2
    ensures n / base * base + n % base == n
  {
  }

  lemma {:induction false} ZerosRead(k: int, s: string, base: nat)
    ensures Value(Rep('0', k) + s, base) == Value(s, base)
    decreases |s|
  {
    NoValue(base);
    hide Value, Rep, Join, DigitValue;
    if s == "" {
      assert Rep('0', k) + s == Rep('0', k);
      OnlyZeros(k, base);
    } else {
      var n := |s| - 1;
      ZerosRead(k, s[..n], base);
      ValueNext(Rep('0', k) + s[..n], s[n], base);
      ValueNext(s[..n], s[n], base);
      assert Rep('0', k) + s[..n] + [s[n]] == Rep('0', k) + s && s[..n] + [s[n]] == s;
    }
  }

  lemma NoValue(base: nat)
    ensures Value("", base) == 0
  {
  }

  lemma {:induction false} OnlyZeros(k: int, base: nat)
    ensures Value(Rep('0', k), base) == 0
    decreases Max(k, 0)
  {
    if k > 0 {
      OnlyZeros(k - 1, base);
      ValueNext(Rep('0', k - 1), '0', base);
    }
  }

  ghost predicate AllDigits(d: string, base: int) {
    forall i :: 0 <= i < |d| ==> 0 <= DigitValue(d[i]) < base
  }

  /** Nothing follows that could be taken for a digit. */
  predicate Stops(t: string) {
    t != "" ==> DigitValue(t[0]) < 0
  }

  /** A stretch of digits between a given place and something that is no digit. */
  lemma Stretch(pre: string, d: string, post: string, base: int)
    requires AllDigits(d, base) && Stops(post)
    ensures DigitsUpTo(pre + d + post, |pre|, |pre| + |d|, base) && (pre + d + post)[|pre|..|pre| + |d|] == d
  {
    NulNoDigit(pre + d + post, base);
    hide DigitValue;
    var s := pre + d + post;
    forall i | |pre| <= i < |pre| + |d| ensures IsDigit(s, i, base) { assert s[i] == d[i - |pre|]; }
    if post != "" { assert s[|pre| + |d|] == post[0]; }
  }

  lemma OneEnd(s: string, start: nat, end: nat, end': nat, base: int)
    requires DigitsUpTo(s, start, end, base) && DigitsUpTo(s, start, end', base)
    ensures end == end'
  {
    hide DigitValue, At;
  }

  /** What is read from a stretch of digits is its value. */
  lemma ReadsStretch(pre: string, d: string, post: string, base: nat, end: nat, v: int)
    requires AllDigits(d, base) && Stops(post)
    requires DigitsUpTo(pre + d + post, |pre|, end, base) && v == Value((pre + d + post)[|pre|..end], base) % WORD
    ensures v == Value(d, base) % WORD
  {
    hide AllDigits, Stops, DigitsUpTo, Value;
    Stretch(pre, d, post, base);
    OneEnd(pre + d + post, |pre|, end, |pre| + |d|, base);
  }

  lemma ZerosAreDigits(k: int, d: string, base: int)
    requires AllDigits(d, base) && base >= 1
    ensures AllDigits(Rep('0', k) + d, base)
  {
    RepLength('0', k);
    ZeroIsDigit();
    hide Rep, DigitValue;
  }

  lemma ZeroIsDigit()
    ensures DigitValue('0') == 0 && DigitValue(' ') < 0
  {
  }

  /** The zeros and digits that are printed, apart from sign, prefix and spaces. */
  function Figures(num: int, base: nat, width: int, precision: int, f: Flags): string
    requires 2 <= base <= 36 && -0x8000_0000 <= num < 0x8000_0000
  {
    var d := Digits(Magnitude(num, f), base, f.small);
    Fill(f, Pad(num, base, width, precision, f)) + Rep('0', precision - |d|) + d
  }

  lemma ZerosValue(f: Flags, pad: int, k: int, d: string, base: nat)
    requires AllDigits(d, base) && base >= 1
    ensures var s := Fill(f, pad) + Rep('0', k) + d; AllDigits(s, base) && Value(s, base) == Value(d, base)
  {
    hide Value, Rep, DigitValue, AllDigits;
    NoRep('0', 0);
    var n := if !f.left && f.zeropad then pad else 0;
    assert Fill(f, pad) == Rep('0', n);
    assert Rep('0', n) + Rep('0', k) + d == Rep('0', n) + (Rep('0', k) + d);
    ZerosRead(k, d, base);
    ZerosRead(n, Rep('0', k) + d, base);
    ZerosAreDigits(k, d, base);
    ZerosAreDigits(n, Rep('0', k) + d, base);
  }

  lemma SomeDigit(n: nat, base: nat, small: bool)
    requires 2 <= base <= 36
    ensures Digits(n, base, small) != ""
  {
  }

  lemma FiguresRead(num: int, base: nat, width: int, precision: int, f: Flags) returns (a: string, b: string)
    requires 2 <= base <= 36 && -0x8000_0000 <= num < 0x8000_0000
    ensures Figures(num, base, width, precision, f) == a + b && AllDigits(a, base) && Stops(b)
    ensures Value(a, base) == Legibly(Magnitude(num, f), base) && (base <= 16 ==> b == "" && a != "")
  {
    hide Digits, Value, Rep, AllDigits, DigitValue, Pad, Legible, Legibly, Stops;
    a, b := DigitsRead(Magnitude(num, f), base, f.small);
    var d, pad := Digits(Magnitude(num, f), base, f.small), Pad(num, base, width, precision, f);
    SomeDigit(Magnitude(num, f), base, f.small);
    if base <= 16 { LegibleUpTo16(Magnitude(num, f), base); }
    ZerosValue(f, pad, precision - |d|, a, base);
    var zeros := Fill(f, pad) + Rep('0', precision - |d|);
    assert zeros + (a + b) == zeros + a + b;
    a := zeros + a;
  }

  lemma TrailStops(f: Flags, pad: int)
    ensures Stops(Trail(f, pad))
  {
    RepLength(' ', pad);
    ZeroIsDigit();
    hide Rep, DigitValue;
  }

  lemma PrintedParts(num: int, base: nat, width: int, precision: int, f: Flags)
    requires 2 <= base <= 36 && -0x8000_0000 <= num < 0x8000_0000
    ensures var pad := Pad(num, base, width, precision, f);
      Printed(num, base, width, precision, f) ==
        Lead(f, pad) + SignOf(num, f) + Prefix(base, f) + Figures(num, base, width, precision, f) + Trail(f, pad)
  {
    hide Digits, Rep, SignOf, Prefix, Pad, Lead, Trail, Fill;
    var d, pad := Digits(Magnitude(num, f), base, f.small), Pad(num, base, width, precision, f);
    var a, b, c, e, t := Lead(f, pad) + SignOf(num, f), Prefix(base, f), Fill(f, pad), Rep('0', precision - |d|),
      Trail(f, pad);
    assert a + b + c + e + d + t == a + b + (c + e + d) + t;
  }

  /** A number printed: spaces, sign, prefix, figures, and something that stops a reader. */
  lemma PrintedFigures(num: int, base: nat, width: int, precision: int, f: Flags) returns (d: string, t: string)
    requires 2 <= base <= 36 && -0x8000_0000 <= num < 0x8000_0000
    ensures Printed(num, base, width, precision, f) ==
        Lead(f, Pad(num, base, width, precision, f)) + SignOf(num, f) + Prefix(base, f) + d + t
    ensures AllDigits(d, base) && Stops(t) && Value(d, base) == Legibly(Magnitude(num, f), base)
    ensures Magnitude(num, f) < WORD && (base <= 16 ==> d != "")
  {
    PrintedParts(num, base, width, precision, f);
    var pad := Pad(num, base, width, precision, f);
    TrailStops(f, pad);
    var a, b := FiguresRead(num, base, width, precision, f);
    StopsBehind(b, Trail(f, pad));
    hide Digits, Value, Rep, Printed, Figures, Trail, Lead, Pad, AllDigits, Stops, Prefix, SignOf, Legibly;
    d, t := a, b + Trail(f, pad);
    var head := Lead(f, pad) + SignOf(num, f) + Prefix(base, f);
    assert head + (a + b) + Trail(f, pad) == head + a + (b + Trail(f, pad));
  }

  /** A number printed without sign and without spaces in front: prefix, figures, and something that stops a reader. */
  lemma PrintedUnsigned(num: int, base: nat, width: int, precision: int, f: Flags) returns (d: string, t: string)
    requires 2 <= base <= 36 && -0x8000_0000 <= num < 0x8000_0000 && !f.sign && !f.plus && !f.space
    requires f.left || f.zeropad || Pad(num, base, width, precision, f) <= 0
    ensures Printed(num, base, width, precision, f) == Prefix(base, f) + d + t
    ensures AllDigits(d, base) && Stops(t) && Value(d, base) == Legibly(Magnitude(num, f), base)
    ensures Magnitude(num, f) < WORD && (base <= 16 ==> d != "")
  {
    NoRep(' ', Pad(num, base, width, precision, f));
    hide Digits, Value, Rep, Printed, Figures, Trail, Pad, AllDigits, Stops, Prefix, Legibly;
    d, t := PrintedFigures(num, base, width, precision, f);
    assert "" + "" + Prefix(base, f) == Prefix(base, f);
  }

  lemma StopsBehind(b: string, t: string)
    requires Stops(b) && Stops(t)
    ensures Stops(b + t)
  {
    assert b == "" ==> b + t == t;
  }

  lemma InWord(x: int)
    requires 0 <= x < WORD
    ensures x % WORD == x
  {
  }

  /** What strtoul reads of digits in a base that is given. */
  lemma PlainRead(s: string, base: nat, d: string, t: string, end: nat, v: int)
    requires base != 0 && AllDigits(d, base) && Stops(t) && s == "" + d + t
    requires DigitsUpTo(s, BaseOf(s, base).1, end, BaseOf(s, base).0)
    requires v == Value(s[BaseOf(s, base).1..end], BaseOf(s, base).0) % WORD
    ensures v == Value(d, base) % WORD
  {
    hide Value, AllDigits, Stops, DigitsUpTo, DigitValue;
    ReadsStretch("", d, t, base, end, v);
  }

  lemma NoPrefix(base: int, f: Flags, d: string, t: string)
    requires !f.special
    ensures Prefix(base, f) + d + t == "" + d + t
  {
  }

  /** What number prints of an unsigned value without prefix and without spaces in front reads back as the value exactly
      when strtoul knows all its digits; else as what stands before the first it does not. */
  method ReadBack(num: int, base: nat, width: int, precision: int, f: Flags) returns (v: int)
    requires 2 <= base <= 36 && -0x8000_0000 <= num < 0x8000_0000 && !f.sign && !f.plus && !f.space && !f.special
    requires f.left || f.zeropad || Pad(num, base, width, precision, f) <= 0
    ensures v == Legibly(Magnitude(num, f), base)
    ensures v == Magnitude(num, f) <==> Legible(Magnitude(num, f), base)
    ensures base <= 16 ==> v == Magnitude(num, f)
  {
    hide *;
    ghost var d, t := PrintedUnsigned(num, base, width, precision, f);
    var r := Number(num, base, width, precision, f);
    var end: nat;
    v, end := SimpleStrtoul(r.value, base);
    NoPrefix(base, f, d, t);
    PlainRead(r.value, base, d, t, end, v);
    LegiblyLess(Magnitude(num, f), base);
    InWord(Legibly(Magnitude(num, f), base));
    if base <= 16 { LegibleUpTo16(Magnitude(num, f), base); }
  }

  /** With its prefix an unsigned octal or hexadecimal number reads back in the base found from the prefix; the
      capital X of a hexadecimal one is not understood, so that one reads as 0. */
  method ReadPrefixed(num: int, base: nat, width: int, precision: int, f: Flags) returns (v: int)
    requires (base == 8 || base == 16) && -0x8000_0000 <= num < 0x8000_0000 && !f.sign && !f.plus && !f.space
    requires f.special
    requires f.left || f.zeropad || Pad(num, base, width, precision, f) <= 0
    ensures v == if base == 8 || f.small then Magnitude(num, f) else 0
  {
    hide *;
    ghost var d, t := PrintedUnsigned(num, base, width, precision, f);
    var r := Number(num, base, width, precision, f);
    var end: nat;
    v, end := SimpleStrtoul(r.value, 0);
    PrefixedRead(base, f, d, t, end, v);
    LegibleUpTo16(Magnitude(num, f), base);
    LegiblyLess(Magnitude(num, f), base);
    InWord(Magnitude(num, f));
  }

  lemma PrefixedRead(base: nat, f: Flags, d: string, t: string, end: nat, v: int)
    requires (base == 8 || base == 16) && f.special && d != "" && AllDigits(d, base) && Stops(t)
    requires var s := Prefix(base, f) + d + t;
        DigitsUpTo(s, BaseOf(s, 0).1, end, BaseOf(s, 0).0) && v == Value(s[BaseOf(s, 0).1..end], BaseOf(s, 0).0) % WORD
    ensures v == if base == 8 || f.small then Value(d, base) % WORD else 0
  {
    hide Value, AllDigits, Stops, DigitsUpTo, BaseOf, DigitValue;
    if base == 8 {
      OctalBase(d, t);
      ReadsStretch("0", d, t, 8, end, v);
    } else if f.small {
      HexBase(d, t);
      ReadsStretch("0x", d, t, 16, end, v);
    } else {
      CapitalBase(d + t);
      assert "0X" + d + t == "0X" + (d + t);
      NothingRead("0X" + d + t, end, v);
    }
  }

  lemma OctalBase(d: string, t: string)
    requires d != "" && AllDigits(d, 8)
    ensures BaseOf("0" + d + t, 0) == (8, 1)
  {
    var s := "0" + d + t;
    assert At(s, 0) == '0' && At(s, 1) == d[0];
  }

  lemma HexBase(d: string, t: string)
    requires d != "" && AllDigits(d, 16)
    ensures BaseOf("0x" + d + t, 0) == (16, 2)
  {
    hide DigitValue;
    var s := "0x" + d + t;
    assert At(s, 0) == '0' && At(s, 1) == 'x' && At(s, 2) == d[0];
  }

  lemma CapitalBase(r: string)
    ensures BaseOf("0X" + r, 0) == (8, 1) && !IsDigit("0X" + r, 1, 8)
  {
    var s := "0X" + r;
    assert At(s, 0) == '0' && At(s, 1) == 'X';
  }

  lemma NothingRead(s: string, end: nat, v: int)
    requires |s| >= 1 && !IsDigit(s, 1, 8) && DigitsUpTo(s, 1, end, 8) && v == Value(s[1..end], 8) % WORD
    ensures v == 0
  {
    hide DigitValue;
    assert s[1..1] == "";
    NoValue(8);
  }

  // ---------------------------------------------------------------- read back with its sign

  /** What the sign and the magnitude say. */
  lemma Signed(num: int, f: Flags)
    requires -0x8000_0000 <= num < 0x8000_0000
    ensures SignOf(num, f) == "-" <==> f.sign && num < 0
    ensures SignOf(num, f) == "+" <==> !(f.sign && num < 0) && f.plus
    ensures SignOf(num, f) == " " <==> !(f.sign && num < 0) && !f.plus && f.space
    ensures SignOf(num, f) in {"-", "+", " ", ""}
    ensures f.sign ==> num == if num < 0 then 0 - Magnitude(num, f) else Magnitude(num, f)
    ensures !f.sign ==> Magnitude(num, f) % WORD == num % WORD
  {
  }

  lemma LeadSpaces(f: Flags, pad: int)
    ensures forall i :: 0 <= i < |Lead(f, pad)| ==> Lead(f, pad)[i] == ' '
  {
    RepLength(' ', pad);
  }

  /** How many spaces a string begins with. */
  method SkipSpaces(s: string) returns (p: nat)
    ensures p <= |s| && (forall i :: 0 <= i < p ==> s[i] == ' ') && (p < |s| ==> s[p] != ' ')
  {
    p := 0;
    while p < |s| && s[p] == ' '
      invariant p <= |s| && forall i :: 0 <= i < p ==> s[i] == ' '
    {
      p := p + 1;
    }
  }

  /** No figure is a space or a sign. */
  lemma FirstFigure(base: nat, f: Flags, d: string)
    requires 2 <= base <= 16 && d != "" && AllDigits(d, base)
    ensures Prefix(base, f) + d != "" && (Prefix(base, f) + d)[0] !in {' ', '-', '+'}
  {
    assert 0 <= DigitValue(d[0]);
  }

  /** Where the spaces of a printed number end, and what comes then. */
  lemma SpacesEnd(lead: string, sign: string, rest: string, p: nat)
    requires sign in {"-", "+", " ", ""} && rest != "" && rest[0] !in {' ', '-', '+'}
    requires forall i :: 0 <= i < |lead| ==> lead[i] == ' '
    requires var s := lead + sign + rest;
      p <= |s| && (forall i :: 0 <= i < p ==> s[i] == ' ') && (p < |s| ==> s[p] != ' ')
    ensures p < |lead + sign + rest|
    ensures var s := lead + sign + rest;
      && (s[p] == '-' <==> sign == "-") && (s[p] == '+' <==> sign == "+")
      && s[p + (if s[p] in {'-', '+'} then 1 else 0)..] == rest
  {
    var s := lead + sign + rest;
    var q := |lead| + if sign == " " then 1 else 0;
    assert forall i :: 0 <= i < q ==> s[i] == ' ';
    assert s[q] == if sign in {"-", "+"} then sign[0] else rest[0];
    assert p == q;
  }

  lemma PrefixOff(base: nat, f: Flags, d: string, t: string)
    ensures |Prefix(base, f)| <= |Prefix(base, f) + d + t|
    ensures (Prefix(base, f) + d + t)[|Prefix(base, f)|..] == "" + d + t
  {
  }

  lemma SignedParts(lead: string, sign: string, prefix: string, d: string, t: string)
    ensures lead + sign + prefix + d + t == lead + sign + (prefix + d + t)
    ensures prefix + d != "" ==> prefix + d + t != "" && (prefix + d + t)[0] == (prefix + d)[0]
  {
    assert prefix + d + t == (prefix + d) + t;
  }

  /** What number prints of any value, read back as sign, prefix and digits, is that value; modulo 2^32 if it is printed
      as one without a sign. */
  method ReadSigned(num: int, base: nat, width: int, precision: int, f: Flags) returns (v: int)
    requires 2 <= base <= 16 && -0x8000_0000 <= num < 0x8000_0000
    ensures f.sign ==> v == num
    ensures !f.sign ==> 0 <= v < WORD && v % WORD == num % WORD
  {
    Signed(num, f);
    PrefixLength(base, f);
    LeadSpaces(f, Pad(num, base, width, precision, f));
    hide *;
    ghost var d, t := PrintedFigures(num, base, width, precision, f);
    ghost var lead, sign, rest := Lead(f, Pad(num, base, width, precision, f)), SignOf(num, f), Prefix(base, f) + d + t;
    FirstFigure(base, f, d);
    SignedParts(lead, sign, Prefix(base, f), d, t);
    var r := Number(num, base, width, precision, f);
    var s := r.value;
    var p := SkipSpaces(s);
    SpacesEnd(lead, sign, rest, p);
    var negative := s[p] == '-';
    if s[p] == '-' || s[p] == '+' { p := p + 1; }
    s := s[p..];
    PrefixOff(base, f, d, t);
    if f.special {
      if base == 16 { s := s[2..]; } else if base == 8 { s := s[1..]; }
    }
    assert s == "" + d + t;
    var end: nat;
    v, end := SimpleStrtoul(s, base);
    PlainRead(s, base, d, t, end, v);
    LegibleUpTo16(Magnitude(num, f), base);
    LegiblyLess(Magnitude(num, f), base);
    InWord(Magnitude(num, f));
    if negative { v := -v; }
  }
}
