/** `BigInt(text)` and `toString()`: which texts are integers, and the one text each integer is written as. */
module Decimals {
  import opened Prelude
  import opened HexCodec

  datatype NumberError = NotAnInteger

  /** The value of a digit of any base up to 36; 36 stands for "no digit". */
  function DigitOf(c: char): (v: nat)
    ensures v <= 36
  {
    if '0' <= c <= '9' then c as int - '0' as int
    else if 'a' <= c <= 'z' then c as int - 'a' as int + 10
    else if 'A' <= c <= 'Z' then c as int - 'A' as int + 10
    else 36
  }

  predicate AreDigits(s: string, base: nat) {
    s != "" && forall i :: 0 <= i < |s| ==> DigitOf(s[i]) < base
  }

  function Value(s: string, base: nat): nat {
    if s == "" then 0 else Value(s[..|s| - 1], base) * base + DigitOf(s[|s| - 1])
  }

  function ParseDigits(s: string, base: nat): Result<int, NumberError> {
    if AreDigits(s, base) then Ok(Value(s, base)) else Err(NotAnInteger)
  }

  /** Blanks around the number are ignored, no text at all is zero, and only decimal numbers take a sign. */
  function ParseBigInt(text: string): Result<int, NumberError> {
    var s := Trim(text);
    if s == "" then Ok(0)
    else if "0x" <= s || "0X" <= s then ParseDigits(s[2..], 16)
    else if "0o" <= s || "0O" <= s then ParseDigits(s[2..], 8)
    else if "0b" <= s || "0B" <= s then ParseDigits(s[2..], 2)
    else if s[0] == '+' then ParseDigits(s[1..], 10)
    else if s[0] == '-' then
      var n :- ParseDigits(s[1..], 10);
      Ok(-n)
    else ParseDigits(s, 10)
  }

  function Digits(n: nat): string {
    if n < 10 then ['0' + n as char] else Digits(n / 10) + ['0' + (n % 10) as char]
  }

  function ToDecimal(n: int): string {
    if n < 0 then "-" + Digits(-n) else Digits(n)
  }

  predicate AreDecimal(s: string) {
    s != "" && forall i :: 0 <= i < |s| ==> '0' <= s[i] <= '9'
  }

  lemma {:induction false} ValueOfDigits(n: nat)
    ensures AreDecimal(Digits(n)) && Value(Digits(n), 10) == n
  {
    var s := Digits(n);
    if n < 10 {
      assert s[..0] == "";
    } else {
      ValueOfDigits(n / 10);
      assert s[..|s| - 1] == Digits(n / 10);
    }
  }

  lemma NothingToTrim(s: string)
    requires s != "" && !IsSpace(s[0]) && !IsSpace(s[|s| - 1])
    ensures Trim(s) == s
  {
  }

  lemma ParsePlain(s: string)
    requires AreDecimal(s)
    ensures ParseBigInt(s) == Ok(Value(s, 10))
  {
    NothingToTrim(s);
    assert AreDigits(s, 10);
    assert |s| >= 2 ==> '0' <= s[1] <= '9';
  }

  lemma ParseNegative(s: string)
    requires AreDecimal(s)
    ensures ParseBigInt("-" + s).Ok? && ParseBigInt("-" + s).value + Value(s, 10) == 0
  {
    var t := "-" + s;
    assert t[|t| - 1] == s[|s| - 1];
    NothingToTrim(t);
    assert AreDigits(s, 10);
    assert t[0] == '-' && t[1..] == s;
  }

  /** Writing an integer and reading it back gives the integer, whatever its sign and size. */
  lemma ParseToDecimal(n: int)
    ensures ParseBigInt(ToDecimal(n)) == Ok(n)
  {
    if n < 0 {
      ValueOfDigits(-n);
      ParseNegative(Digits(-n));
    } else {
      ValueOfDigits(n);
      ParsePlain(Digits(n));
    }
  }

  /** The canonical writing of a number that a text stands for. */
  function Canonical(text: string): Result<string, NumberError> {
    var n :- ParseBigInt(text);
    Ok(ToDecimal(n))
  }

  /** Canonical texts stay as they are, and two texts have the same canonical form exactly when their values agree. */
  lemma CanonicalForms(a: string, b: string)
    ensures Canonical(a).Ok? <==> ParseBigInt(a).Ok?
    ensures Canonical(a).Ok? ==> Canonical(Canonical(a).value) == Canonical(a)
    ensures Canonical(a).Ok? && Canonical(b).Ok? ==>
              (Canonical(a) == Canonical(b) <==> ParseBigInt(a) == ParseBigInt(b))
  {
    if Canonical(a).Ok? {
      ParseToDecimal(ParseBigInt(a).value);
    }
    if Canonical(b).Ok? {
      ParseToDecimal(ParseBigInt(b).value);
    }
  }

  // ----- the texts of integers, spelled out

  ghost predicate Numeral(s: string, digits: string) {
    s != "" && forall i :: 0 <= i < |s| ==> s[i] in digits
  }

  ghost predicate Prefixed(m: string, letters: string, digits: string) {
    |m| >= 2 && m[0] == '0' && m[1] in letters && Numeral(m[2..], digits)
  }

  lemma DigitsAreListed(c: char)
    ensures DigitOf(c) < 2 <==> c in "01"
    ensures DigitOf(c) < 8 <==> c in "01234567"
    ensures DigitOf(c) < 10 <==> c in "0123456789"
    ensures DigitOf(c) < 16 <==> c in "0123456789abcdefABCDEF"
  {
    var hex := "0123456789abcdefABCDEF";
    if '0' <= c <= '9' {
      var k := c as int - '0' as int;
      assert hex[k] == "0123456789"[k] == c;
      assert k < 8 ==> "01234567"[k] == c;
      assert k < 2 ==> "01"[k] == c;
    } else if 'a' <= c <= 'f' {
      assert hex[c as int - 'a' as int + 10] == c;
    } else if 'A' <= c <= 'F' {
      assert hex[c as int - 'A' as int + 16] == c;
    }
  }

  lemma NumeralsAreDigits(s: string)
    ensures AreDigits(s, 2) <==> Numeral(s, "01")
    ensures AreDigits(s, 8) <==> Numeral(s, "01234567")
    ensures AreDigits(s, 10) <==> Numeral(s, "0123456789")
    ensures AreDigits(s, 16) <==> Numeral(s, "0123456789abcdefABCDEF")
  {
    hide DigitOf;
    forall i | 0 <= i < |s|
      ensures DigitOf(s[i]) < 2 <==> s[i] in "01"
      ensures DigitOf(s[i]) < 8 <==> s[i] in "01234567"
      ensures DigitOf(s[i]) < 10 <==> s[i] in "0123456789"
      ensures DigitOf(s[i]) < 16 <==> s[i] in "0123456789abcdefABCDEF"
    {
      DigitsAreListed(s[i]);
    }
  }

  /**
    Blanks around a text do not count, and what is between them is an integer exactly when it is empty, a decimal with
    or without a sign, or digits of base 16, 8 or 2 behind their prefix.
   */
  lemma BigIntForms(text: string, a: string, m: string, b: string)
    requires Surrounds(text, a, m, b) && NoBlankEnds(m)
    ensures ParseBigInt(text) == ParseBigInt(m)
    ensures ParseBigInt(text).Ok? <==>
      || m == "" || Numeral(m, "0123456789") || (m[0] in "+-" && Numeral(m[1..], "0123456789"))
      || Prefixed(m, "xX", "0123456789abcdefABCDEF") || Prefixed(m, "oO", "01234567") || Prefixed(m, "bB", "01")
  {
    hide AreDigits, Numeral, Trim, Surrounds;
    TrimSurrounded(text, a, m, b);
    TrimSurrounded(m, "", m, "") by {
      assert "" + m + "" == m;
    }
    if m != "" {
      NumeralsAreDigits(m);
      NumeralsAreDigits(m[1..]);
      NoOtherStart(m);
      if |m| >= 2 {
        NumeralsAreDigits(m[2..]);
        PrefixLetters(m);
      }
    }
  }

  lemma NoOtherStart(m: string)
    requires m != ""
    ensures Numeral(m, "0123456789") ==> m[0] !in "+-" && (|m| >= 2 ==> m[1] !in "xXoObB")
  {
  }

  lemma PrefixLetters(m: string)
    requires |m| >= 2
    ensures ("0x" <= m || "0X" <= m) <==> m[0] == '0' && m[1] in "xX"
    ensures ("0o" <= m || "0O" <= m) <==> m[0] == '0' && m[1] in "oO"
    ensures ("0b" <= m || "0B" <= m) <==> m[0] == '0' && m[1] in "bB"
    ensures m[1] in "xXoObB" <==> m[1] in "xX" || m[1] in "oO" || m[1] in "bB"
  {
  }

  /** The base that a prefix announces. */
  ghost predicate Announces(prefix: string, base: nat) {
    (prefix in ["0x", "0X"] && base == 16) || (prefix in ["0o", "0O"] && base == 8)
    || (prefix in ["0b", "0B"] && base == 2)
  }

  lemma PrefixedValue(prefix: string, s: string, base: nat)
    requires Announces(prefix, base) && AreDigits(s, base)
    ensures ParseBigInt(prefix + s) == Ok(Value(s, base))
  {
    var t := prefix + s;
    assert t[0] == '0' && t[|t| - 1] == s[|s| - 1] && t[..2] == prefix && t[2..] == s;
    assert !IsSpace(s[|s| - 1]);
    NothingToTrim(t);
    assert t[1] == prefix[1];
  }

  lemma ValueExtend(s: string, c: char, base: nat)
    ensures Value(s + [c], base) == base * Value(s, base) + DigitOf(c)
    ensures Value([c], base) == DigitOf(c)
  {
    assert (s + [c])[..|s|] == s;
    assert [c][..0] == "";
  }

  lemma DigitAt(k: nat)
    requires k < 16
    ensures DigitOf("0123456789abcdef"[k]) == k == DigitOf("0123456789ABCDEF"[k])
    ensures k < 10 ==> '0' <= "0123456789abcdef"[k] <= '9'
  {
  }

  /** A decimal is read place by place, the last digit counting once, and a minus sign negates it. */
  lemma DecimalByPlace(s: string, k: nat)
    requires k < 10
    ensures var c := "0123456789"[k];
      && ParseBigInt([c]) == Ok(k)
      && (AreDecimal(s) ==>
            && ParseBigInt(s).Ok? && ParseBigInt(s + [c]) == Ok(10 * ParseBigInt(s).value + k)
            && ParseBigInt("+" + s) == ParseBigInt(s)
            && ParseBigInt("-" + s).Ok? && ParseBigInt("-" + s).value == -ParseBigInt(s).value)
  {
    hide ParseBigInt, Value, DigitOf;
    var c := "0123456789"[k];
    DigitAt(k);
    assert c == "0123456789abcdef"[k];
    ValueExtend(s, c, 10);
    ParsePlain([c]);
    if AreDecimal(s) {
      ParsePlain(s);
      ParsePlain(s + [c]);
      ParseNegative(s);
      ParsePlus(s);
    }
  }

  lemma ParsePlus(s: string)
    requires AreDecimal(s)
    ensures ParseBigInt("+" + s) == Ok(Value(s, 10))
  {
    var t := "+" + s;
    assert t[|t| - 1] == s[|s| - 1];
    NothingToTrim(t);
    assert AreDigits(s, 10);
    assert t[0] == '+' && t[1..] == s;
  }

  /** So are the digits behind a prefix, in its base and in either case. */
  lemma PrefixedByPlace(prefix: string, base: nat, s: string, c: char, k: nat)
    requires Announces(prefix, base) && k < base
    requires c == "0123456789abcdef"[k] || c == "0123456789ABCDEF"[k]
    ensures ParseBigInt(prefix + [c]) == Ok(k)
    ensures AreDigits(s, base) ==>
      && ParseBigInt(prefix + s).Ok?
      && ParseBigInt(prefix + (s + [c])) == Ok(base * ParseBigInt(prefix + s).value + k)
  {
    hide ParseBigInt, Value;
    DigitAt(k);
    ValueExtend(s, c, base);
    assert AreDigits([c], base) && (AreDigits(s, base) ==> AreDigits(s + [c], base)) by {
      hide DigitOf;
    }
    hide AreDigits, DigitOf;
    PrefixedValue(prefix, [c], base);
    if AreDigits(s, base) {
      PrefixedValue(prefix, s, base);
      PrefixedValue(prefix, s + [c], base);
    }
  }
}
