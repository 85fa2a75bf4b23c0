/** Hex strings, the bytes they stand for, and the two orders on them (core/primitives.ts, update-batch.ts). */
module HexCodec {
  import opened Prelude

  type Byte = b: int | 0 <= b < 256

  datatype HexError = NotHex

  // ----- normalizeHex

  /** The characters that String.prototype.trim removes. */
  predicate IsSpace(c: char) {
    || '\U{0009}' <= c <= '\U{000D}' || c == ' ' || c == '\U{00A0}' || c == '\U{1680}'
    || '\U{2000}' <= c <= '\U{200A}' || c == '\U{2028}' || c == '\U{2029}' || c == '\U{202F}'
    || c == '\U{205F}' || c == '\U{3000}' || c == '\U{FEFF}'
  }

  function TrimStart(s: string): string {
    if s != [] && IsSpace(s[0]) then TrimStart(s[1..]) else s
  }

  function TrimEnd(s: string): string {
    if s != [] && IsSpace(s[|s| - 1]) then TrimEnd(s[..|s| - 1]) else s
  }

  function Trim(s: string): string {
    TrimEnd(TrimStart(s))
  }

  /** Lower case. Only the letters A-Z have a lower case among the characters that hex strings use. */
  function LowerChar(c: char): char {
    if 'A' <= c <= 'Z' then c + 32 as char else c
  }

  function Lower(s: string): (r: string)
    ensures |r| == |s|
  {
    seq(|s|, i requires 0 <= i < |s| => LowerChar(s[i]))
  }

  predicate IsHexDigit(c: char) {
    '0' <= c <= '9' || 'a' <= c <= 'f'
  }

  predicate IsHex(s: string) {
    |s| % 2 == 0 && forall i :: 0 <= i < |s| ==> IsHexDigit(s[i])
  }

  function NormalizeHex(value: string): Result<string, HexError> {
    var trimmed := Lower(Trim(value));
    var normalized := if "0x" <= trimmed then trimmed[2..] else trimmed;
    if IsHex(normalized) then Ok(normalized) else Err(NotHex)
  }

  /** Normal forms are exactly the even-length lower-case hex strings, and normalizing again changes nothing. */
  lemma NormalFormsAreFixed(h: string)
    ensures IsHex(h) <==> NormalizeHex(h) == Ok(h)
    ensures forall v :: NormalizeHex(v) == Ok(h) ==> NormalizeHex(h) == Ok(h)
  {
    if IsHex(h) {
      assert Trim(h) == h;
      assert Lower(h) == h;
      if |h| >= 2 {
        assert IsHexDigit(h[1]);
      }
    }
  }

  // ----- normalizing, spelled out

  /** `v` is `m` between blanks. */
  ghost predicate Surrounds(v: string, a: string, m: string, b: string) {
    && v == a + m + b
    && (forall i :: 0 <= i < |a| ==> IsSpace(a[i])) && (forall i :: 0 <= i < |b| ==> IsSpace(b[i]))
  }

  ghost predicate NoBlankEnds(m: string) {
    m != "" ==> !IsSpace(m[0]) && !IsSpace(m[|m| - 1])
  }

  lemma {:induction false} TrimStartParts(v: string) returns (a: string)
    ensures Surrounds(v, a, TrimStart(v), "")
    ensures TrimStart(v) != "" ==> !IsSpace(TrimStart(v)[0])
  {
    a := "";
    if v != "" && IsSpace(v[0]) {
      var rest := TrimStartParts(v[1..]);
      a := [v[0]] + rest;
      assert v == [v[0]] + v[1..];
    }
  }

  lemma {:induction false} TrimEndParts(v: string) returns (b: string)
    ensures Surrounds(v, "", TrimEnd(v), b)
    ensures TrimEnd(v) != "" ==> !IsSpace(TrimEnd(v)[|TrimEnd(v)| - 1])
  {
    b := "";
    if v != "" && IsSpace(v[|v| - 1]) {
      var rest := TrimEndParts(v[..|v| - 1]);
      b := rest + [v[|v| - 1]];
      assert v == v[..|v| - 1] + [v[|v| - 1]];
    }
  }

  /** What is left after trimming, and the blanks around it. */
  lemma TrimParts(v: string) returns (a: string, b: string)
    ensures Surrounds(v, a, Trim(v), b) && NoBlankEnds(Trim(v))
  {
    a := TrimStartParts(v);
    b := TrimEndParts(TrimStart(v));
  }

  /** A text without blanks at its ends is what trimming leaves of it between blanks. */
  lemma TrimSurrounded(v: string, a: string, m: string, b: string)
    requires Surrounds(v, a, m, b) && NoBlankEnds(m)
    ensures Trim(v) == m
  {
    if m == "" {
      var c, d := TrimParts(v);
      assert forall i :: 0 <= i < |Trim(v)| ==> Trim(v)[i] == v[|c| + i];
      assert forall i :: 0 <= i < |v| ==> IsSpace(v[i]);
    } else {
      TrimStartOf(a, m + b);
      assert a + (m + b) == v;
      TrimEndOf(m, b);
    }
  }

  lemma {:induction false} TrimStartOf(a: string, rest: string)
    requires forall i :: 0 <= i < |a| ==> IsSpace(a[i])
    requires rest != "" && !IsSpace(rest[0])
    ensures TrimStart(a + rest) == rest
  {
    if a == "" {
      assert a + rest == rest;
    } else {
      assert (a + rest)[1..] == a[1..] + rest;
      TrimStartOf(a[1..], rest);
    }
  }

  lemma {:induction false} TrimEndOf(m: string, b: string)
    requires forall i :: 0 <= i < |b| ==> IsSpace(b[i])
    requires m != "" && !IsSpace(m[|m| - 1])
    ensures TrimEnd(m + b) == m
  {
    if b == "" {
      assert m + b == m;
    } else {
      var n := |m + b| - 1;
      assert (m + b)[..n] == m + b[..|b| - 1];
      TrimEndOf(m, b[..|b| - 1]);
    }
  }

  /** `m` is `t`, some of its letters perhaps in upper case. */
  ghost predicate SameButCase(m: string, t: string) {
    |m| == |t| && forall i :: 0 <= i < |m| ==>
      m[i] == t[i] || ('A' <= m[i] <= 'Z' && m[i] as int + 32 == t[i] as int)
  }

  /** `v` writes the hex string `h`: in letters of either case, with or without "0x", between blanks. */
  ghost predicate Writes(v: string, h: string) {
    exists a, m, b :: Surrounds(v, a, m, b) && (SameButCase(m, h) || SameButCase(m, "0x" + h))
  }

  /** The texts that normalize to `h` are exactly those that write it, and `h` is whole bytes of lower-case hex. */
  lemma NormalizeHexExactly(v: string, h: string)
    ensures NormalizeHex(v) == Ok(h)
       <==> Writes(v, h) && |h| % 2 == 0 && forall i :: 0 <= i < |h| ==> h[i] in "0123456789abcdef"
  {
    hide NormalizeHex, Writes, IsHexDigit;
    HexDigitsAreThose(h);
    if NormalizeHex(v) == Ok(h) {
      NormalizedIsWritten(v, h);
    }
    if IsHex(h) && Writes(v, h) {
      WrittenNormalizes(v, h);
    }
  }

  lemma NormalizedIsWritten(v: string, h: string)
    requires NormalizeHex(v) == Ok(h)
    ensures Writes(v, h) && IsHex(h)
  {
    hide Surrounds, Trim;
    var a, b := TrimParts(v);
    var m := Trim(v);
    assert Lower(m) == h || Lower(m) == "0x" + h;
    LowersToSame(m, Lower(m));
  }

  lemma LowersToSame(m: string, t: string)
    requires Lower(m) == t
    ensures SameButCase(m, t)
  {
    assert forall i :: 0 <= i < |m| ==> t[i] == LowerChar(m[i]);
  }

  lemma WrittenNormalizes(v: string, h: string)
    requires IsHex(h) && Writes(v, h)
    ensures NormalizeHex(v) == Ok(h)
  {
    hide Surrounds, Trim, SameButCase;
    var a, m, b :| Surrounds(v, a, m, b) && (SameButCase(m, h) || SameButCase(m, "0x" + h));
    WrittenLowers(m, h);
    TrimSurrounded(v, a, m, b);
    assert ("0x" + h)[2..] == h;
    if |h| >= 2 {
      assert IsHexDigit(h[1]);
    }
  }

  lemma HexDigitsAreThose(h: string)
    ensures (forall i :: 0 <= i < |h| ==> IsHexDigit(h[i])) <==>
      (forall i :: 0 <= i < |h| ==> h[i] in "0123456789abcdef")
  {
    forall i | 0 <= i < |h|
      ensures IsHexDigit(h[i]) <==> h[i] in "0123456789abcdef"
    {
      HexDigitIsOne(h[i]);
    }
  }

  lemma HexDigitIsOne(c: char)
    ensures IsHexDigit(c) <==> c in "0123456789abcdef"
  {
    var digits := "0123456789abcdef";
    if '0' <= c <= '9' {
      assert digits[c as int - '0' as int] == c;
    }
    if 'a' <= c <= 'f' {
      assert digits[c as int - 'a' as int + 10] == c;
    }
  }

  lemma WrittenLowers(m: string, h: string)
    requires IsHex(h) && (SameButCase(m, h) || SameButCase(m, "0x" + h))
    ensures NoBlankEnds(m) && (Lower(m) == h || Lower(m) == "0x" + h)
  {
    var t := if SameButCase(m, h) then h else "0x" + h;
    assert forall i :: 0 <= i < |t| ==> IsHexDigit(t[i]) || t[i] == 'x';
    assert forall i :: 0 <= i < |t| ==> LowerChar(m[i]) == t[i] && !IsSpace(m[i]);
    assert Lower(m) == t;
  }

  // ----- decoding and encoding

  function DigitValue(c: char): (v: int)
    requires IsHexDigit(c)
    ensures 0 <= v < 16
  {
    if c <= '9' then c as int - '0' as int else c as int - 'a' as int + 10
  }

  function DigitChar(v: int): (c: char)
    requires 0 <= v < 16
    ensures IsHexDigit(c) && DigitValue(c) == v
  {
    if v < 10 then '0' + v as char else 'a' + (v - 10) as char
  }

  function Decode(h: string): (bytes: seq<Byte>)
    requires IsHex(h)
  {
    if h == [] then []
    else [16 * DigitValue(h[0]) + DigitValue(h[1])] + Decode(h[2..])
  }

  function Encode(bytes: seq<Byte>): (h: string)
    ensures IsHex(h)
  {
    if bytes == [] then []
    else [DigitChar(bytes[0] / 16), DigitChar(bytes[0] % 16)] + Encode(bytes[1..])
  }

  lemma {:induction false} DecodeEncode(bytes: seq<Byte>)
    ensures Decode(Encode(bytes)) == bytes
  {
    if bytes != [] {
      assert Encode(bytes)[2..] == Encode(bytes[1..]);
      DecodeEncode(bytes[1..]);
    }
  }

  lemma {:induction false} EncodeDecode(h: string)
    requires IsHex(h)
    ensures Encode(Decode(h)) == h
  {
    if h != [] {
      EncodeDecode(h[2..]);
      EncodeByte(h[0], h[1], Decode(h[2..]));
      assert h == [h[0], h[1]] + h[2..];
    }
  }

  lemma EncodeByte(c: char, d: char, rest: seq<Byte>)
    requires IsHexDigit(c) && IsHexDigit(d)
    ensures Encode([16 * DigitValue(c) + DigitValue(d)] + rest) == [c, d] + Encode(rest)
  {
    ByteDigits(DigitValue(c), DigitValue(d));
    DigitRoundTrip(c);
    DigitRoundTrip(d);
    var bytes := [16 * DigitValue(c) + DigitValue(d)] + rest;
    assert bytes[1..] == rest;
  }

  lemma ByteDigits(high: int, low: int)
    requires 0 <= high < 16 && 0 <= low < 16
    ensures (16 * high + low) / 16 == high && (16 * high + low) % 16 == low
  {
  }

  lemma DigitRoundTrip(c: char)
    requires IsHexDigit(c)
    ensures DigitChar(DigitValue(c)) == c
  {
  }

  /** Byte `k` is written as two digits, the higher one first. */
  lemma {:induction false} EncodedDigits(bytes: seq<Byte>)
    ensures |Encode(bytes)| == 2 * |bytes|
    ensures forall k :: 0 <= k < |bytes| ==>
      && Encode(bytes)[2 * k] == "0123456789abcdef"[bytes[k] / 16]
      && Encode(bytes)[2 * k + 1] == "0123456789abcdef"[bytes[k] % 16]
  {
    hide DigitChar;
    if bytes != [] {
      var h, rest := Encode(bytes), Encode(bytes[1..]);
      EncodedDigits(bytes[1..]);
      assert h == [DigitChar(bytes[0] / 16), DigitChar(bytes[0] % 16)] + rest;
      DigitIsListed(bytes[0] / 16);
      DigitIsListed(bytes[0] % 16);
      forall k | 0 < k < |bytes|
        ensures h[2 * k] == "0123456789abcdef"[bytes[k] / 16] && h[2 * k + 1] == "0123456789abcdef"[bytes[k] % 16]
      {
        assert bytes[k] == bytes[1..][k - 1];
        assert h[2 * k] == rest[2 * (k - 1)] && h[2 * k + 1] == rest[2 * (k - 1) + 1];
      }
    }
  }

  lemma DigitIsListed(v: int)
    requires 0 <= v < 16
    ensures DigitChar(v) == "0123456789abcdef"[v]
  {
  }

  // ----- the order on strings and the order on bytes

  /** JavaScript's `<` on strings of single-unit characters. */
  predicate StringLess(a: string, b: string) {
    b != [] && (a == [] || a[0] < b[0] || (a[0] == b[0] && StringLess(a[1..], b[1..])))
  }

  function CompareHexBytewise(left: string, right: string): int {
    if StringLess(left, right) then -1 else if StringLess(right, left) then 1 else 0
  }

  /** The coordinator's order on token names: the first differing byte decides, a proper prefix comes first. */
  function CompareBytes(a: seq<Byte>, b: seq<Byte>): int {
    if a == [] && b == [] then 0
    else if a == [] then -1
    else if b == [] then 1
    else if a[0] != b[0] then if a[0] < b[0] then -1 else 1
    else CompareBytes(a[1..], b[1..])
  }

  lemma {:induction false} StringOrderIsByteOrder(left: string, right: string)
    requires IsHex(left) && IsHex(right)
    ensures StringLess(left, right) <==> CompareBytes(Decode(left), Decode(right)) == -1
    ensures CompareHexBytewise(left, right) == CompareBytes(Decode(left), Decode(right))
    decreases |left|
  {
    if left != [] && right != [] {
      LessByTwo(left, right);
      LessByTwo(right, left);
      StringOrderIsByteOrder(left[2..], right[2..]);
      assert Decode(left)[1..] == Decode(left[2..]) && Decode(right)[1..] == Decode(right[2..]);
    }
  }

  /** One byte is two hex digits, and the digits are ordered as their values are. */
  lemma LessByTwo(a: string, b: string)
    requires IsHex(a) && IsHex(b) && a != [] && b != []
    ensures var x, y := Decode(a)[0], Decode(b)[0];
      StringLess(a, b) <==> x < y || (x == y && StringLess(a[2..], b[2..]))
  {
    assert a[1..][1..] == a[2..] && b[1..][1..] == b[2..];
    assert StringLess(a[1..], b[1..]) <==> a[1] < b[1] || (a[1] == b[1] && StringLess(a[2..], b[2..]));
    DigitOrder(a[0], b[0]);
    DigitOrder(a[1], b[1]);
  }

  lemma DigitOrder(c: char, d: char)
    requires IsHexDigit(c) && IsHexDigit(d)
    ensures c < d <==> DigitValue(c) < DigitValue(d)
    ensures c == d <==> DigitValue(c) == DigitValue(d)
  {
  }

  lemma {:induction false} StringLessTransitive(a: string, b: string, c: string)
    requires StringLess(a, b) && StringLess(b, c)
    ensures StringLess(a, c)
  {
    if a != [] && a[0] == b[0] == c[0] {
      StringLessTransitive(a[1..], b[1..], c[1..]);
    }
  }

  lemma {:induction false} StringOrderIsStrict(a: string, b: string)
    ensures !StringLess(a, a)
    ensures StringLess(a, b) ==> !StringLess(b, a)
    ensures !StringLess(a, b) && !StringLess(b, a) ==> a == b
    decreases |a|
  {
    if a != [] {
      StringOrderIsStrict(a[1..], if b != [] then b[1..] else []);
      if b != [] && a[0] == b[0] && a[1..] == b[1..] {
        assert a == [a[0]] + a[1..];
        assert b == [b[0]] + b[1..];
      }
    }
  }
}
