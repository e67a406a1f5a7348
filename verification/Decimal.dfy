/** C's decimal conversions: "%ld" one way, strtol and its relatives the other. */
module Decimal {
  const LONG_MAX := 0x7fff_ffff_ffff_ffff
  const LONG_MIN := -0x8000_0000_0000_0000

  predicate IsDigit(c: char) {
    '0' <= c <= '9'
  }

  predicate IsSpace(c: char) {
    c == ' ' || '\t' <= c <= '\r'
  }

  predicate AllDigits(s: string) {
    forall i :: 0 <= i < |s| ==> IsDigit(s[i])
  }

  function DigitChar(d: nat): (c: char)
    requires d < 10
    ensures IsDigit(c) && c as int - '0' as int == d
  {
    (d + '0' as int) as char
  }

  function DigitValue(c: char): nat
    requires IsDigit(c)
  {
    c as int - '0' as int
  }

  /** The decimal text of a number, without leading zeros. */
  function Digits(n: nat): (s: string)
    ensures s != "" && AllDigits(s) && Value(s) == n
  {
    if n < 10 then [DigitChar(n)]
    else
      var s := Digits(n / 10) + [DigitChar(n % 10)];
      assert s[..|s| - 1] == Digits(n / 10);
      s
  }

  /** The number a string of digits stands for. */
  function Value(s: string): nat
    requires AllDigits(s)
  {
    if s == "" then 0 else 10 * Value(s[..|s| - 1]) + DigitValue(s[|s| - 1])
  }

  function FromInt(x: int): string {
    if x < 0 then "-" + Digits(-x) else Digits(x)
  }

  /** How many of the first characters are digits. */
  function DigitRun(s: string): (n: nat)
    ensures n <= |s| && AllDigits(s[..n]) && (n < |s| ==> !IsDigit(s[n]))
  {
    if s == "" || !IsDigit(s[0]) then 0
    else
      var n := DigitRun(s[1..]);
      assert s[..n + 1] == [s[0]] + s[1..][..n];
      n + 1
  }

  function SkipSpace(s: string): string {
    if s != "" && IsSpace(s[0]) then SkipSpace(s[1..]) else s
  }

  function Clamp(x: int): int {
    if x > LONG_MAX then LONG_MAX else if x < LONG_MIN then LONG_MIN else x
  }

  /** strtol, strtoll and g_ascii_strtoll in base 10: white space, a sign, digits; the
      value is clamped to 64 bits, and false means that no digit was found. */
  function Strtoll(s: string): (r: (int, bool))
  {
    var t := SkipSpace(s);
    var negative := t != "" && t[0] == '-';
    var u := if t != "" && (t[0] == '-' || t[0] == '+') then t[1..] else t;
    var n := DigitRun(u);
    if n == 0 then (0, false)
    else if negative then (Clamp(0 - Value(u[..n])), true)
    else (Clamp(Value(u[..n])), true)
  }

  function Low32(x: int): nat {
    x % 0x1_0000_0000
  }

  /** The low 32 bits as a signed number: what a conversion to int keeps. */
  function ToInt32(x: int): int {
    var w := Low32(x);
    if w < 0x8000_0000 then w else w - 0x1_0000_0000
  }

  lemma Low32At(x: int, q: int, r: nat)
    requires x == 0x1_0000_0000 * q + r && r < 0x1_0000_0000
    ensures Low32(x) == r
  {
  }

  lemma Low32Negated(x: int)
    ensures Low32(-x) == if Low32(x) == 0 then 0 else 0x1_0000_0000 - Low32(x)
  {
    var q, r := x / 0x1_0000_0000, Low32(x);
    assert x == 0x1_0000_0000 * q + r;
    hide Low32;
    if r == 0 {
      Low32At(-x, -q, 0);
    } else {
      Low32At(-x, -q - 1, 0x1_0000_0000 - r);
    }
  }

  lemma {:induction false} DigitRunOfDigits(s: string, tail: string)
    requires AllDigits(s) && (tail == "" || !IsDigit(tail[0]))
    ensures DigitRun(s + tail) == |s|
  {
    if s == "" {
      assert s + tail == tail;
    } else {
      assert (s + tail)[1..] == s[1..] + tail;
      DigitRunOfDigits(s[1..], tail);
    }
  }

  lemma SkipNoSpace(s: string)
    requires s != "" && !IsSpace(s[0])
    ensures SkipSpace(s) == s
  {
  }

  lemma StrtollPlain(d: string, tail: string)
    requires d != "" && AllDigits(d) && (tail == "" || !IsDigit(tail[0]))
    ensures Strtoll(d + tail) == (Clamp(Value(d)), true)
  {
    var u := d + tail;
    DigitRunOfDigits(d, tail);
    assert u[0] == d[0] && IsDigit(d[0]);
    SkipNoSpace(u);
    hide DigitRun, Value, SkipSpace, Clamp, AllDigits;
    assert u[..|d|] == d;
  }

  lemma MinusParts(d: string, tail: string)
    ensures var s := "-" + d + tail; s[0] == '-' && s[1..] == d + tail && s[1..][..|d|] == d
  {
  }

  lemma StrtollMinus(d: string, tail: string)
    requires d != "" && AllDigits(d) && (tail == "" || !IsDigit(tail[0]))
    ensures Strtoll("-" + d + tail) == (Clamp(0 - Value(d)), true)
  {
    hide DigitRun, Value, SkipSpace, Clamp, AllDigits;
    MinusParts(d, tail);
    DigitRunOfDigits(d, tail);
    SkipNoSpace("-" + d + tail);
  }

  /** Reading back a printed number, whatever follows it. */
  lemma StrtollOfInt(x: int, tail: string)
    requires LONG_MIN <= x <= LONG_MAX && (tail == "" || !IsDigit(tail[0]))
    ensures Strtoll(FromInt(x) + tail) == (x, true)
  {
    if x < 0 { StrtollMinus(Digits(-x), tail); } else { StrtollPlain(Digits(x), tail); }
    hide Strtoll, Digits, Value, AllDigits;
  }

  lemma StrtollOfDigits(s: string)
    requires AllDigits(s) && s != ""
    ensures Strtoll(s) == (Clamp(Value(s)), true)
  {
    DigitRunOfDigits(s, "");
    assert s + "" == s && s[..|s|] == s;
    assert IsDigit(s[0]);
  }

  predicate AllSpaces(s: string) {
    forall i :: 0 <= i < |s| ==> IsSpace(s[i])
  }

  lemma {:induction false} SkipSpaces(sp: string, s: string)
    requires AllSpaces(sp)
    ensures SkipSpace(sp + s) == SkipSpace(s)
  {
    if sp == "" {
      assert sp + s == s;
    } else {
      assert (sp + s)[1..] == sp[1..] + s;
      SkipSpaces(sp[1..], s);
    }
  }

  lemma {:induction false} SpacesBefore(s: string) returns (sp: string)
    ensures AllSpaces(sp) && s == sp + SkipSpace(s)
  {
    if s != "" && IsSpace(s[0]) {
      var rest := SpacesBefore(s[1..]);
      sp := [s[0]] + rest;
      assert s == [s[0]] + s[1..];
    } else {
      sp := "";
    }
  }

  lemma StrtollPlus(d: string, tail: string)
    requires d != "" && AllDigits(d) && (tail == "" || !IsDigit(tail[0]))
    ensures Strtoll("+" + d + tail) == (Clamp(Value(d)), true)
  {
    hide DigitRun, Value, SkipSpace, Clamp, AllDigits;
    var s := "+" + d + tail;
    assert s[0] == '+' && s[1..] == d + tail && s[1..][..|d|] == d;
    DigitRunOfDigits(d, tail);
    SkipNoSpace(s);
  }

  /** White space, at most one sign, and digits. */
  ghost predicate Numeral(s: string, sp: string, sign: string, d: string, tail: string) {
    && s == sp + (sign + d + tail)
    && AllSpaces(sp) && (sign == "" || sign == "+" || sign == "-")
    && d != "" && AllDigits(d) && (tail == "" || !IsDigit(tail[0]))
  }

  /** A number is read from a text exactly if it starts with one, and it is that one, cut
      off at the 64-bit limits; from any other text 0 is read. */
  lemma StrtollOfNumeral(s: string, sp: string, sign: string, d: string, tail: string)
    requires Numeral(s, sp, sign, d, tail)
    ensures Strtoll(s) == (Clamp(if sign == "-" then 0 - Value(d) else Value(d)), true)
  {
    var rest := sign + d + tail;
    SkipSpaces(sp, rest);
    assert Strtoll(s) == Strtoll(rest) by { hide DigitRun, Value, Clamp, SkipSpace; }
    if sign == "-" {
      StrtollMinus(d, tail);
    } else if sign == "+" {
      StrtollPlus(d, tail);
    } else {
      assert rest == d + tail;
      StrtollPlain(d, tail);
    }
    hide Strtoll, Value, Clamp, AllDigits, AllSpaces;
  }

  lemma StrtollFindsIff(s: string)
    ensures Strtoll(s).1 <==> exists sp, sign, d, tail :: Numeral(s, sp, sign, d, tail)
    ensures !Strtoll(s).1 ==> Strtoll(s).0 == 0
  {
    if exists sp, sign, d, tail :: Numeral(s, sp, sign, d, tail) {
      var sp, sign, d, tail :| Numeral(s, sp, sign, d, tail);
      StrtollOfNumeral(s, sp, sign, d, tail);
    }
    if Strtoll(s).1 {
      var sp := SpacesBefore(s);
      var t := SkipSpace(s);
      var sign := if t != "" && (t[0] == '-' || t[0] == '+') then [t[0]] else "";
      var u := t[|sign|..];
      var n := DigitRun(u);
      assert t == sign + u[..n] + u[n..];
      assert Numeral(s, sp, sign, u[..n], u[n..]);
    }
  }

  /** A 32-bit value survives a trip through its unsigned and its 64-bit forms. */
  lemma ToInt32OfUnsigned(x: int)
    requires -0x8000_0000 <= x < 0x8000_0000
    ensures ToInt32(x % 0x1_0000_0000) == x && ToInt32(x) == x
  {
    if x < 0 {
      Low32At(x, -1, x + 0x1_0000_0000);
      Low32At(x + 0x1_0000_0000, 0, x + 0x1_0000_0000);
    } else {
      Low32At(x, 0, x);
    }
  }
}
