/**
 Unsigned numerals in decimal, octal and hexadecimal, as one part of a host may spell them
 (src/services/ssrf.ts), and the shortest spelling of a number, as Number.prototype.toString writes it.
 Reading and spelling are inverse up to leading zeros and letter case.
 */
module Numerals {

  import opened Base
  import opened Text

  /** The value of a digit character; 36 for anything that is not one. */
  function DigitValue(c: char): nat {
    if '0' <= c <= '9' then c as int - '0' as int
    else if 'a' <= c <= 'z' then c as int - 'a' as int + 10
    else if 'A' <= c <= 'Z' then c as int - 'A' as int + 10
    else 36
  }

  datatype Notation = Octal | Decimal | Hex {
    function Base(): nat {
      match this
      case Octal => 8
      case Decimal => 10
      case Hex => 16
    }

    function Times(n: nat): nat {
      match this
      case Octal => 8 * n
      case Decimal => 10 * n
      case Hex => 16 * n
    }

    function Quotient(n: nat): nat {
      match this
      case Octal => n / 8
      case Decimal => n / 10
      case Hex => n / 16
    }

    function Remainder(n: nat): (d: nat)
      ensures d < Base()
    {
      n - Times(Quotient(n))
    }
  }

  predicate AllDigits(s: string, b: Notation) {
    forall i | 0 <= i < |s| :: DigitValue(s[i]) < b.Base()
  }

  /** Number.parseInt on a text that holds digits of the base only. */
  function Radix(s: string, b: Notation): nat {
    if s == "" then 0 else b.Times(Radix(s[..|s| - 1], b)) + DigitValue(s[|s| - 1])
  }

  function ParseUint(part: string): Option<nat> {
    if part == "" then None
    else if |part| >= 3 && part[0] == '0' && part[1] in {'x', 'X'} && AllDigits(part[2..], Hex) then
      Some(Radix(part[2..], Hex))
    else if |part| >= 2 && part[0] == '0' && AllDigits(part[1..], Octal) then Some(Radix(part[1..], Octal))
    else if part == "0" then Some(0)
    else if '1' <= part[0] <= '9' && AllDigits(part, Decimal) then Some(Radix(part, Decimal))
    else None
  }

  function DigitChar(d: nat): char
    requires d < 36
  {
    if d < 10 then ('0' as int + d) as char else ('a' as int + d - 10) as char
  }

  /** The shortest spelling of a number, as Number.prototype.toString writes it. */
  function Digits(n: nat, b: Notation): (s: string)
    ensures |s| >= 1
    decreases n
  {
    if n < b.Base() then [DigitChar(n)] else Digits(b.Quotient(n), b) + [DigitChar(b.Remainder(n))]
  }

  function Zeros(k: nat): string {
    seq(k, _ => '0')
  }

  /**
   * What a numeral of n looks like: n in decimal without leading zeros, a zero followed by n in
   * octal, or 0x followed by n in hexadecimal of any letter case; octal and hexadecimal numerals
   * may be padded with zeros.
   */
  ghost predicate IsNumeral(s: string, n: nat) {
    || s == Digits(n, Decimal)
    || (exists k: nat :: s == OctalNumeral(k, n))
    || (exists k: nat :: Lower(s) == HexNumeral(k, n))
  }

  function OctalNumeral(zeros: nat, n: nat): string {
    "0" + Zeros(zeros) + Digits(n, Octal)
  }

  function HexNumeral(zeros: nat, n: nat): string {
    "0x" + Zeros(zeros) + Digits(n, Hex)
  }

  lemma DigitOfChar(d: nat)
    requires d < 36
    ensures DigitValue(DigitChar(d)) == d && LowerChar(DigitChar(d)) == DigitChar(d)
  {
  }

  lemma {:induction false} DigitsAreDigits(n: nat, b: Notation)
    ensures AllDigits(Digits(n, b), b) && IsLower(Digits(n, b))
    decreases n
  {
    if n < b.Base() {
      DigitOfChar(n);
    } else {
      DigitOfChar(b.Remainder(n));
      DigitsAreDigits(b.Quotient(n), b);
    }
  }

  lemma {:induction false} NoLeadingZero(n: nat, b: Notation)
    ensures Digits(n, b)[0] == '0' <==> n == 0
    decreases n
  {
    if n >= b.Base() {
      NoLeadingZero(b.Quotient(n), b);
    }
  }

  lemma {:induction false} DigitsReadBack(n: nat, b: Notation)
    ensures Radix(Digits(n, b), b) == n
    decreases n
  {
    if n < b.Base() {
      DigitOfChar(n);
    } else {
      DigitOfChar(b.Remainder(n));
      DigitsReadBack(b.Quotient(n), b);
      RadixStep(Digits(b.Quotient(n), b), DigitChar(b.Remainder(n)), b);
    }
  }

  lemma RadixStep(s: string, c: char, b: Notation)
    ensures Radix(s + [c], b) == b.Times(Radix(s, b)) + DigitValue(c)
  {
    assert (s + [c])[..|s|] == s;
  }

  lemma {:induction false} RadixOfZeros(k: nat, s: string, b: Notation)
    ensures Radix(Zeros(k) + s, b) == Radix(s, b)
    decreases k + |s|
  {
    var t := Zeros(k) + s;
    if s != "" {
      assert t[..|t| - 1] == Zeros(k) + s[..|s| - 1];
      RadixOfZeros(k, s[..|s| - 1], b);
    } else if k > 0 {
      assert t[..|t| - 1] == Zeros(k - 1) + s;
      RadixOfZeros(k - 1, s, b);
    }
  }

  lemma OneDigit(s: string, b: Notation)
    requires |s| == 1 && AllDigits(s, b) && IsLower(s)
    ensures s == Zeros(0) + Digits(Radix(s, b), b)
  {
    RadixStep("", s[0], b);
    assert "" + [s[0]] == s && Zeros(0) == "";
    assert Radix(s, b) == DigitValue(s[0]);
  }

  /** Only zeros can stand in front of the shortest spelling of a number. */
  lemma {:induction false} PaddedDigits(s: string, b: Notation) returns (k: nat)
    requires |s| >= 1 && AllDigits(s, b) && IsLower(s)
    ensures s == Zeros(k) + Digits(Radix(s, b), b)
  {
    if |s| == 1 {
      k := 0;
      OneDigit(s, b);
    } else {
      LastDigit(s, b);
      k := PaddedDigits(s[..|s| - 1], b);
      k := PaddedStep(s, b, k);
    }
  }

  lemma DigitsExtend(n: nat, c: char, b: Notation)
    requires n > 0 && DigitValue(c) < b.Base() && LowerChar(c) == c
    ensures Digits(b.Times(n) + DigitValue(c), b) == Digits(n, b) + [c]
  {
    var m := b.Times(n) + DigitValue(c);
    assert b.Quotient(m) == n && b.Remainder(m) == DigitValue(c);
  }

  lemma LastDigit(s: string, b: Notation)
    requires |s| >= 1 && AllDigits(s, b) && IsLower(s)
    ensures AllDigits(s[..|s| - 1], b) && IsLower(s[..|s| - 1])
    ensures DigitValue(s[|s| - 1]) < b.Base() && LowerChar(s[|s| - 1]) == s[|s| - 1]
  {
  }

  lemma PaddedStep(s: string, b: Notation, k: nat) returns (j: nat)
    requires |s| >= 1 && s[..|s| - 1] == Zeros(k) + Digits(Radix(s[..|s| - 1], b), b)
    requires DigitValue(s[|s| - 1]) < b.Base() && LowerChar(s[|s| - 1]) == s[|s| - 1]
    ensures s == Zeros(j) + Digits(Radix(s, b), b)
  {
    var init, c := s[..|s| - 1], s[|s| - 1];
    var n := Radix(init, b);
    assert s == init + [c];
    assert Radix(s, b) == b.Times(n) + DigitValue(c);
    if n == 0 {
      j := k + 1;
      assert Digits(0, b) == "0" && Digits(DigitValue(c), b) == [c];
      assert Zeros(k) + "0" == Zeros(k + 1);
    } else {
      j := k;
      DigitsExtend(n, c, b);
      assert init + [c] == Zeros(k) + (Digits(n, b) + [c]);
    }
  }

  lemma {:induction false} RadixIgnoresCase(s: string, b: Notation)
    requires AllDigits(s, b)
    ensures AllDigits(Lower(s), b) && Radix(Lower(s), b) == Radix(s, b)
  {
    if s != "" {
      RadixIgnoresCase(s[..|s| - 1], b);
      assert Lower(s)[..|s| - 1] == Lower(s[..|s| - 1]);
    }
  }

  lemma LowerDigits(s: string, b: Notation)
    requires AllDigits(Lower(s), b)
    ensures AllDigits(s, b)
  {
    forall i | 0 <= i < |s|
      ensures DigitValue(s[i]) < b.Base()
    {
      assert DigitValue(Lower(s)[i]) < b.Base();
    }
  }

  lemma DecimalIsRead(n: nat)
    ensures ParseUint(Digits(n, Decimal)) == Some(n)
  {
    var s := Digits(n, Decimal);
    DigitsAreDigits(n, Decimal);
    DigitsReadBack(n, Decimal);
    if n == 0 {
      assert s == "0";
    } else {
      NoLeadingZero(n, Decimal);
      assert DigitValue(s[0]) < 10;
      DecimalBranch(s);
    }
  }

  lemma DecimalBranch(s: string)
    requires |s| >= 1 && '1' <= s[0] <= '9' && AllDigits(s, Decimal)
    ensures ParseUint(s) == Some(Radix(s, Decimal))
  {
  }

  lemma PaddedIsRead(k: nat, n: nat, b: Notation, s: string)
    requires s == Zeros(k) + Digits(n, b)
    ensures |s| >= 1 && AllDigits(s, b) && Radix(s, b) == n
  {
    DigitsAreDigits(n, b);
    DigitsReadBack(n, b);
    RadixOfZeros(k, Digits(n, b), b);
  }

  lemma OctalIsRead(k: nat, n: nat)
    ensures ParseUint(OctalNumeral(k, n)) == Some(n)
  {
    var s := OctalNumeral(k, n);
    PaddedIsRead(k, n, Octal, s[1..]) by {
      assert s[1..] == Zeros(k) + Digits(n, Octal);
    }
  }

  lemma HexIsRead(s: string, k: nat, n: nat)
    requires Lower(s) == HexNumeral(k, n)
    ensures ParseUint(s) == Some(n)
  {
    var t := s[2..];
    assert Lower(t) == Lower(s)[2..] == Zeros(k) + Digits(n, Hex);
    PaddedIsRead(k, n, Hex, Lower(t));
    LowerDigits(t, Hex);
    RadixIgnoresCase(t, Hex);
    HexPrefix(s, Lower(t));
  }

  lemma HexPrefix(s: string, t: string)
    requires Lower(s) == "0x" + t
    ensures s[0] == '0' && s[1] in {'x', 'X'}
  {
    var l := Lower(s);
    assert l[0] == '0' && l[1] == 'x';
    assert LowerChar(s[0]) == '0' && LowerChar(s[1]) == 'x';
  }

  lemma LowerHexPrefix(s: string)
    requires |s| >= 2 && s[0] == '0' && s[1] in {'x', 'X'}
    ensures Lower(s) == "0x" + Lower(s[2..])
  {
    assert LowerChar('0') == '0' && LowerChar('x') == 'x' && LowerChar('X') == 'x';
  }

  lemma HexReadIsNumeral(s: string)
    requires |s| >= 3 && s[0] == '0' && s[1] in {'x', 'X'} && AllDigits(s[2..], Hex)
    ensures IsNumeral(s, Radix(s[2..], Hex))
  {
    var t := s[2..];
    RadixIgnoresCase(t, Hex);
    LowerStays(Lower(t));
    var k := PaddedDigits(Lower(t), Hex);
    LowerHexPrefix(s);
    assert Lower(s) == HexNumeral(k, Radix(t, Hex));
  }

  lemma OctalReadIsNumeral(s: string)
    requires |s| >= 2 && s[0] == '0' && AllDigits(s[1..], Octal)
    ensures IsNumeral(s, Radix(s[1..], Octal))
  {
    var k := PaddedDigits(s[1..], Octal);
    assert s == OctalNumeral(k, Radix(s[1..], Octal));
  }

  lemma DecimalReadIsNumeral(s: string)
    requires |s| >= 1 && s[0] != '0' && AllDigits(s, Decimal)
    ensures s == Digits(Radix(s, Decimal), Decimal)
  {
    var k := PaddedDigits(s, Decimal);
    assert Zeros(0) == "";
  }

  lemma ReadIsNumeral(s: string)
    requires ParseUint(s).Some?
    ensures IsNumeral(s, ParseUint(s).value)
  {
    if |s| >= 3 && s[0] == '0' && s[1] in {'x', 'X'} && AllDigits(s[2..], Hex) {
      HexReadIsNumeral(s);
    } else if |s| >= 2 && s[0] == '0' && AllDigits(s[1..], Octal) {
      OctalReadIsNumeral(s);
    } else if s == "0" {
      assert Digits(0, Decimal) == "0";
    } else {
      DecimalReadIsNumeral(s);
    }
  }

  /** A part is read as n exactly when it is a numeral of n. */
  lemma ReadIffNumeral(s: string, n: nat)
    ensures ParseUint(s) == Some(n) <==> IsNumeral(s, n)
  {
    if ParseUint(s).Some? {
      ReadIsNumeral(s);
    }
    if IsNumeral(s, n) {
      if s == Digits(n, Decimal) {
        DecimalIsRead(n);
      } else if k: nat :| s == OctalNumeral(k, n) {
        OctalIsRead(k, n);
      } else {
        var k: nat :| Lower(s) == HexNumeral(k, n);
        HexIsRead(s, k, n);
      }
    }
  }

  predicate NumeralChar(c: char) {
    DigitValue(c) < 16 || c in {'x', 'X'}
  }

  /** Numerals are made of digits, the letters a to f and the x of the prefix. */
  lemma NumeralCharacters(s: string)
    requires ParseUint(s).Some?
    ensures s != "" && forall c | c in s :: NumeralChar(c)
  {
    forall i | 0 <= i < |s|
      ensures NumeralChar(s[i])
    {
      if |s| >= 3 && s[0] == '0' && s[1] in {'x', 'X'} && AllDigits(s[2..], Hex) {
        assert i >= 2 ==> s[i] == s[2..][i - 2];
      } else if |s| >= 2 && s[0] == '0' && AllDigits(s[1..], Octal) {
        assert i >= 1 ==> s[i] == s[1..][i - 1];
      }
    }
  }

  /** Letter case never matters to the value of a numeral. */
  lemma NumeralIgnoresCase(s: string, n: nat)
    requires IsNumeral(s, n)
    ensures IsNumeral(Lower(s), n)
  {
    LowerStays(Lower(s));
    if s == Digits(n, Decimal) {
      DigitsAreDigits(n, Decimal);
      LowerStays(s);
    } else if k: nat :| s == OctalNumeral(k, n) {
      DigitsAreDigits(n, Octal);
      OctalIsLower(k, n);
      LowerStays(s);
    }
  }

  lemma OctalIsLower(k: nat, n: nat)
    ensures IsLower(OctalNumeral(k, n))
  {
    DigitsAreDigits(n, Octal);
  }
}
