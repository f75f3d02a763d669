/** Decimal printing of machine integers into a fixed buffer, and the parser that inverts it. */
module Decimal {
  import opened Wrappers

  const DIGITS := "0123456789"

  predicate IsDigit(c: char) {
    '0' <= c <= '9'
  }

  function DigitOf(d: nat): (c: char)
    requires d < 10
    ensures IsDigit(c) && ValueOf(c) == d
  {
    '0' + d as char
  }

  function ValueOf(c: char): (d: nat)
    requires IsDigit(c)
    ensures d < 10
  {
    (c - '0') as int
  }

  /** The digits of a positive number; none for zero. */
  function Digits(n: nat): string {
    if n == 0 then "" else Digits(n / 10) + [DigitOf(n % 10)]
  }

  function Print(v: int): string {
    if v == 0 then "0" else if v < 0 then "-" + Digits(-v) else Digits(v)
  }

  function ParseDigits(s: string): Option<nat> {
    if s == "" then Some(0)
    else match ParseDigits(s[..|s| - 1])
      case Some(n) => if IsDigit(s[|s| - 1]) then Some(10 * n + ValueOf(s[|s| - 1])) else None
      case None => None
  }

  function Signed(n: Option<nat>, negative: bool): Option<int> {
    if n.None? then None else if negative then Some(0 - n.value as int) else Some(n.value as int)
  }

  function Parse(s: string): Option<int> {
    var negative := s != "" && s[0] == '-';
    var digits := if negative then s[1..] else s;
    if digits == "" then None else Signed(ParseDigits(digits), negative)
  }

  lemma {:induction false} DigitsParse(n: nat)
    ensures ParseDigits(Digits(n)) == Some(n)
  {
    hide DigitOf, ValueOf, IsDigit;
    if n > 0 {
      var front, last := Digits(n / 10), DigitOf(n % 10);
      DigitsParse(n / 10);
      assert Digits(n)[..|front|] == front && Digits(n)[|front|] == last;
    }
  }

  lemma {:induction false} NoLeadingZero(n: nat)
    requires n > 0
    ensures Digits(n) != "" && Digits(n)[0] != '0'
  {
    hide DigitOf;
    NoZeroDigit(n % 10);
    if n >= 10 {
      NoLeadingZero(n / 10);
    } else {
      assert Digits(n / 10) == "";
    }
  }

  lemma {:induction false} OnlyDigits(n: nat)
    ensures forall c | c in Digits(n) :: IsDigit(c)
  {
    hide DigitOf, IsDigit;
    if n > 0 {
      OnlyDigits(n / 10);
    }
  }

  lemma NoZeroDigit(d: nat)
    requires d < 10
    ensures DigitOf(d) == '0' <==> d == 0
  {
  }

  lemma ParsesDigits(n: nat)
    requires n > 0
    ensures Parse(Digits(n)) == Some(n as int)
  {
    hide Digits, ParseDigits;
    DigitsParse(n);
    NoLeadingZero(n);
    OnlyDigits(n);
    assert Digits(n)[0] in Digits(n);
  }

  lemma ParsesNegatedDigits(n: nat)
    requires n > 0
    ensures Parse("-" + Digits(n)) == Some(0 - n as int)
  {
    hide Digits, ParseDigits;
    DigitsParse(n);
    NoLeadingZero(n);
    var digits := Digits(n);
    assert ("-" + digits)[1..] == digits;
  }

  /** Printing is inverted by parsing, and a printed number has no leading zero. */
  lemma PrintInverted(v: int)
    ensures Parse(Print(v)) == Some(v)
    ensures v > 0 ==> Print(v)[0] != '0'
    ensures v < 0 ==> Print(v)[0] == '-' && |Print(v)| > 1 && Print(v)[1] != '0'
    ensures forall c | c in Print(v) :: IsDigit(c) || c == '-'
  {
    if v == 0 {
      ParseZero();
    } else {
      var n: nat := if v < 0 then -v else v;
      ParsesDigits(n);
      ParsesNegatedDigits(n);
      NoLeadingZero(n);
      OnlyDigits(n);
      hide Digits, Parse;
    }
  }

  lemma PositivePrinted(n: nat)
    requires n > 0
    ensures Print(n) != "" && forall c | c in Print(n) :: IsDigit(c)
  {
    NoLeadingZero(n);
    OnlyDigits(n);
  }

  lemma ParseZero()
    ensures Parse("0") == Some(0)
  {
    assert "0"[..0] == "" && ParseDigits("") == Some(0);
  }

  lemma PrintInjective(v: int, w: int)
    requires Print(v) == Print(w)
    ensures v == w
  {
    PrintInverted(v);
    PrintInverted(w);
  }

  /** A number printed after a separator that is not part of a number can be split off again. */
  lemma PrintedLastSplits(x: string, v: int, y: string, w: int, separator: string)
    requires separator != "" && !IsDigit(separator[|separator| - 1]) && separator[|separator| - 1] != '-'
    requires x + separator + Print(v) == y + separator + Print(w)
    ensures x == y && v == w
  {
    var text, p, q := x + separator + Print(v), Print(v), Print(w);
    PrintInverted(v);
    PrintInverted(w);
    var last := separator[|separator| - 1];
    assert text[|text| - |p| - 1] == last && text[|text| - |q| - 1] == last;
    assert |p| == |q|;  // otherwise the separator would end inside a number
    assert p == text[|text| - |p|..] == q;
    PrintInjective(v, w);
    assert x == text[..|text| - |p| - |separator|] == y;
  }

  const MIN_INT64: int := -0x8000_0000_0000_0000
  const MAX_INT64: int := 0x7FFF_FFFF_FFFF_FFFF

  /** Negation of a 64-bit integer: the least one is its own negation. */
  function Negate64(v: int): int {
    if v == MIN_INT64 then MIN_INT64 else -v
  }

  function Pow10(k: nat): (p: nat)
    ensures p > 0
  {
    if k == 0 then 1 else 10 * Pow10(k - 1)
  }

  lemma NineteenDigits()
    ensures Pow10(19) == 10000000000000000000
  {
    assert Pow10(5) == 100000;
    assert Pow10(10) == 10000000000;
    assert Pow10(15) == 1000000000000000;
  }

  /** What the 20-byte printer returns: the least value loses its digits. */
  function ItoaText(value: int): string {
    if value == MIN_INT64 then "-" else Print(value)
  }

  lemma ItoaInvertedIff(value: int)
    requires MIN_INT64 <= value <= MAX_INT64
    ensures Parse(ItoaText(value)) == Some(value) <==> value != MIN_INT64
  {
    PrintInverted(value);
    assert Parse("-") == None;
  }

  lemma DigitStep(left: nat, k: nat)
    requires 0 < left < Pow10(k)
    ensures k > 0 && left / 10 < Pow10(k - 1) && Digits(left) == Digits(left / 10) + [DigitOf(left % 10)]
  {
  }

  /** The digits still to be written in front of `written`, with k places left. */
  ghost predicate Remaining(value: nat, v: int, k: nat, written: string) {
    0 <= v < Pow10(k) && Digits(value) == Digits(v) + written
  }

  lemma DigitWritten(value: nat, v: nat, k: nat, written: string)
    requires v > 0 && Remaining(value, v, k, written)
    ensures k > 0 && Remaining(value, v / 10, k - 1, [DigitOf(v % 10)] + written)
  {
    DigitStep(v, k);
    hide Digits, Pow10, DigitOf;
    assert Digits(v / 10) + [DigitOf(v % 10)] + written == Digits(v / 10) + ([DigitOf(v % 10)] + written);
  }

  lemma NothingWritten(value: nat)
    requires value <= MAX_INT64
    ensures Remaining(value, value, 19, "")
  {
    NineteenDigits();
    hide Digits, Pow10;
    assert Digits(value) + "" == Digits(value);
  }

  lemma AllWritten(value: nat, k: nat, written: string)
    requires Remaining(value, 0, k, written)
    ensures Digits(value) == written
  {
    assert Digits(0) == "" && "" + written == written;
  }

  /** Fills the buffer from its end: nineteen digits and a sign just fit. */
  method Itoa(value: int) returns (text: string)
    requires MIN_INT64 <= value <= MAX_INT64
    ensures text == ItoaText(value)
  {
    if value == 0 {
      return "0";
    }
    var v := value;
    var neg := v < 0;
    if neg {
      v := Negate64(v);
    }
    var buf := new char[20];
    var i := FillDigits(buf, v);
    if neg {
      i := i - 1;
      buf[i] := '-';
      assert buf[i..] == "-" + buf[i + 1..];
    }
    text := buf[i..];
  }

  /** The loop that writes the digits; of a negative number none. */
  method FillDigits(buf: array<char>, value: int) returns (i: nat)
    requires buf.Length == 20 && value <= MAX_INT64
    modifies buf
    ensures 1 <= i <= 20 && buf[i..] == if value > 0 then Digits(value) else ""
  {
    hide Remaining, Digits, DigitOf;
    i := buf.Length;
    var v := value;
    ghost var written := "";
    if value > 0 {
      NothingWritten(value);
    }
    while v > 0
      invariant 1 <= i <= buf.Length && buf[i..] == written
      invariant value > 0 ==> v >= 0 && Remaining(value, v, i - 1, written)
      invariant value <= 0 ==> v == value && written == ""
    {
      DigitWritten(value, v, i - 1, written);
      i := i - 1;
      buf[i] := DigitOf(v % 10);
      written := [DigitOf(v % 10)] + written;
      v := v / 10;
    }
    if value > 0 {
      AllWritten(value, i - 1, written);
    }
  }
}
