/** The pieces of JavaScript's string and number semantics the application
    relies on: `trim`, the `\s` character class, `\d`, UTF-16 `length`,
    `parseInt` and decimal rendering of integers. Strings are sequences of
    Unicode scalar values. */
module JsText {
  import opened Common

  /** ECMAScript WhiteSpace and LineTerminator code points: the characters
      `String.prototype.trim` removes and the regular-expression class `\s`
      matches. */
  predicate IsJsSpace(c: char) {
    var n := c as int;
    n == 0x09 || n == 0x0A || n == 0x0B || n == 0x0C || n == 0x0D || n == 0x20
    || n == 0xA0 || n == 0x1680 || (0x2000 <= n <= 0x200A) || n == 0x2028
    || n == 0x2029 || n == 0x202F || n == 0x205F || n == 0x3000 || n == 0xFEFF
  }

  /** The regular-expression classes `\d` and `[0-9]`: ASCII digits only. */
  predicate IsDigit(c: char) {
    '0' <= c <= '9'
  }

  predicate AllDigits(s: string) {
    forall i :: 0 <= i < |s| ==> IsDigit(s[i])
  }

  predicate NoSpace(s: string) {
    forall i :: 0 <= i < |s| ==> !IsJsSpace(s[i])
  }

  /** Drops leading white space. */
  function TrimStart(s: string): (r: string)
    ensures |r| <= |s| && r == s[|s| - |r|..]
    ensures forall i :: 0 <= i < |s| - |r| ==> IsJsSpace(s[i])
    ensures |r| > 0 ==> !IsJsSpace(r[0])
  {
    if |s| > 0 && IsJsSpace(s[0]) then TrimStart(s[1..]) else s
  }

  /** Drops trailing white space. */
  function TrimEnd(s: string): (r: string)
    ensures |r| <= |s| && r == s[..|r|]
    ensures forall i :: |r| <= i < |s| ==> IsJsSpace(s[i])
    ensures |r| > 0 ==> !IsJsSpace(r[|r| - 1])
  {
    if |s| > 0 && IsJsSpace(s[|s| - 1]) then TrimEnd(s[..|s| - 1]) else s
  }

  /** `String.prototype.trim`. */
  function Trim(s: string): (r: string)
    ensures |r| > 0 ==> !IsJsSpace(r[0]) && !IsJsSpace(r[|r| - 1])
    ensures NoSpace(s) ==> r == s
    ensures r == [] <==> (forall i :: 0 <= i < |s| ==> IsJsSpace(s[i]))
    ensures exists a, b :: 0 <= a <= b <= |s| && r == s[a..b]
                           && (forall i :: 0 <= i < a ==> IsJsSpace(s[i]))
                           && (forall i :: b <= i < |s| ==> IsJsSpace(s[i]))
  {
    var t := TrimStart(s);
    var r := TrimEnd(t);
    assert |r| > 0 ==> r[0] == t[0];
    TrimEmptyExactlyForSpaces(s);
    TrimIsInfix(s, t, r);
    r
  }

  /** The trimmed text is the infix left after cutting white space off
      both ends. */
  lemma TrimIsInfix(s: string, t: string, r: string)
    requires |t| <= |s| && t == s[|s| - |t|..]
    requires forall i :: 0 <= i < |s| - |t| ==> IsJsSpace(s[i])
    requires |r| <= |t| && r == t[..|r|]
    requires forall k :: |r| <= k < |t| ==> IsJsSpace(t[k])
    ensures exists a, b :: 0 <= a <= b <= |s| && r == s[a..b]
                           && (forall i :: 0 <= i < a ==> IsJsSpace(s[i]))
                           && (forall i :: b <= i < |s| ==> IsJsSpace(s[i]))
  {
    var a := |s| - |t|;
    var b := a + |r|;
    assert r == s[a..b];
    forall i | b <= i < |s| ensures IsJsSpace(s[i]) {
      assert s[i] == t[i - a];
    }
  }

  lemma TrimEmptyExactlyForSpaces(s: string)
    ensures TrimEnd(TrimStart(s)) == [] <==> (forall i :: 0 <= i < |s| ==> IsJsSpace(s[i]))
  {
    var t := TrimStart(s);
    TrimStartEmptyExactlyForSpaces(s);
    if |t| > 0 {
      TrimEndKeepsNonSpace(t);
    }
  }

  lemma TrimStartEmptyExactlyForSpaces(s: string)
    ensures TrimStart(s) == [] <==> (forall i :: 0 <= i < |s| ==> IsJsSpace(s[i]))
  {
    var t := TrimStart(s);
    assert |t| > 0 ==> t[0] == s[|s| - |t|];
  }

  lemma TrimEndKeepsNonSpace(t: string)
    requires |t| > 0 && !IsJsSpace(t[0])
    ensures |TrimEnd(t)| > 0
  {
  }

  /** `value.replace(/\s/g, '')`: every white-space character deleted, every
      other character kept in order. */
  function RemoveSpaces(s: string): (r: string)
    ensures NoSpace(r)
    ensures |r| <= |s|
    ensures NoSpace(s) ==> r == s
  {
    if |s| == 0 then []
    else if IsJsSpace(s[0]) then RemoveSpaces(s[1..])
    else [s[0]] + RemoveSpaces(s[1..])
  }

  /** The `length` of a JavaScript string: code points above U+FFFF take two
      UTF-16 code units. */
  function Utf16Length(s: string): (n: nat)
    ensures |s| <= n <= 2 * |s|
    ensures (forall i :: 0 <= i < |s| ==> s[i] as int < 0x1_0000) ==> n == |s|
    ensures |s| == 1 ==> n == (if s[0] as int < 0x1_0000 then 1 else 2)
  {
    if |s| == 0 then 0
    else (if s[0] as int < 0x1_0000 then 1 else 2) + Utf16Length(s[1..])
  }

  /** The length of a concatenation is the sum of the lengths, so with the
      one-character case the length is one unit per character plus one
      more per character outside the Basic Multilingual Plane. */
  lemma {:induction false} Utf16LengthConcat(a: string, b: string)
    ensures Utf16Length(a + b) == Utf16Length(a) + Utf16Length(b)
  {
    if |a| > 0 {
      assert (a + b)[1..] == a[1..] + b;
      Utf16LengthConcat(a[1..], b);
    } else {
      assert a + b == b;
    }
  }

  lemma {:induction false} DigitsUtf16Length(s: string)
    requires AllDigits(s)
    ensures Utf16Length(s) == |s|
  {
    assert forall i :: 0 <= i < |s| ==> s[i] as int < 0x1_0000 by {
      forall i | 0 <= i < |s| ensures s[i] as int < 0x1_0000 {
        assert IsDigit(s[i]);
      }
    }
  }

  /** Value of a character as a digit in radices up to 36, or 36 for
      characters that are no digit at all. */
  function DigitValue(c: char): (d: nat)
    ensures d <= 36
    ensures d < 10 <==> IsDigit(c)
  {
    if '0' <= c <= '9' then c as int - '0' as int
    else if 'a' <= c <= 'z' then c as int - 'a' as int + 10
    else if 'A' <= c <= 'Z' then c as int - 'A' as int + 10
    else 36
  }

  /** The longest prefix of `s` made of digits of the given radix. */
  function DigitPrefix(s: string, radix: nat): (z: string)
    ensures |z| <= |s| && z == s[..|z|]
    ensures forall i :: 0 <= i < |z| ==> DigitValue(z[i]) < radix
    ensures |z| < |s| ==> DigitValue(s[|z|]) >= radix
  {
    if |s| > 0 && DigitValue(s[0]) < radix then [s[0]] + DigitPrefix(s[1..], radix) else []
  }

  /** Positional value of a digit string, most significant digit first. */
  function DigitsValue(z: string, radix: nat): nat {
    if |z| == 0 then 0
    else DigitsValue(z[..|z| - 1], radix) * radix + DigitValue(z[|z| - 1])
  }

  /** The digits part of `parseInt`, after white space and sign: a `0x`/`0X`
      prefix selects radix 16, and the longest run of digits that follows is
      read; `None` when that run is empty. */
  function ParseUnsigned(u: string): Option<nat> {
    var hex := |u| >= 2 && u[0] == '0' && (u[1] == 'x' || u[1] == 'X');
    var radix := if hex then 16 else 10;
    var z := DigitPrefix(if hex then u[2..] else u, radix);
    if |z| == 0 then None else Some(DigitsValue(z, radix))
  }

  /** `parseInt(s)` without a radix argument: leading white space is skipped,
      one sign is accepted, and the rest is read by `ParseUnsigned`. `None`
      stands for `NaN`. A negative zero is reported as 0. */
  function ParseInt(s: string): Option<int> {
    var t := TrimStart(s);
    var signed := |t| > 0 && (t[0] == '-' || t[0] == '+');
    var magnitude := ParseUnsigned(if signed then t[1..] else t);
    if magnitude.None? then None
    else if signed && t[0] == '-' then Some(-(magnitude.value as int))
    else Some(magnitude.value)
  }

  function DigitChar(d: nat): (c: char)
    requires d < 10
    ensures IsDigit(c) && DigitValue(c) == d
  {
    ['0', '1', '2', '3', '4', '5', '6', '7', '8', '9'][d]
  }

  /** Rendering of a natural number in decimal digits. */
  function NatToString(n: nat): (s: string)
    ensures |s| > 0 && AllDigits(s)
    ensures |s| > 1 ==> s[0] != '0'
  {
    if n < 10 then [DigitChar(n)] else NatToString(n / 10) + [DigitChar(n % 10)]
  }

  /** Rendering of an integer in decimal digits, with a leading `-` when
      negative. */
  function IntToString(i: int): string {
    if i < 0 then "-" + NatToString(-i) else NatToString(i)
  }

  lemma {:induction false} NatToStringValue(n: nat)
    ensures DigitsValue(NatToString(n), 10) == n
  {
    if n >= 10 {
      var s := NatToString(n);
      assert s[..|s| - 1] == NatToString(n / 10);
      NatToStringValue(n / 10);
    }
  }

  lemma {:induction false} DigitPrefixOfDigits(s: string)
    requires AllDigits(s)
    ensures DigitPrefix(s, 10) == s
  {
    if |s| > 0 {
      DigitPrefixOfDigits(s[1..]);
    }
  }

  lemma ParseUnsignedOfNatToString(n: nat)
    ensures ParseUnsigned(NatToString(n)) == Some(n)
  {
    var digits := NatToString(n);
    NatToStringValue(n);
    DigitPrefixOfDigits(digits);
    assert !(|digits| >= 2 && digits[0] == '0');
  }

  lemma TrimStartNoLeadingSpace(s: string)
    requires |s| > 0 && !IsJsSpace(s[0])
    ensures TrimStart(s) == s
  {
  }

  /** `parseInt` reads back every integer rendered in decimal digits. */
  lemma ParseIntOfIntToString(i: int)
    ensures ParseInt(IntToString(i)) == Some(i)
  {
    var s := IntToString(i);
    if i < 0 {
      ParseIntOfNegative(-i, s);
    } else {
      ParseIntOfNat(i);
    }
  }

  lemma ParseIntOfNegative(n: nat, s: string)
    requires n > 0 && s == "-" + NatToString(n)
    ensures ParseInt(s) == Some(-(n as int))
  {
    assert s[0] == '-';
    TrimStartNoLeadingSpace(s);
    var t := TrimStart(s);
    assert t == s;
    assert t[1..] == NatToString(n);
    ParseUnsignedOfNatToString(n);
    assert ParseUnsigned(t[1..]) == Some(n);
  }

  lemma ParseIntOfNat(n: nat)
    ensures ParseInt(NatToString(n)) == Some(n)
  {
    var digits := NatToString(n);
    assert TrimStart(digits) == digits by {
      assert IsDigit(digits[0]);
      TrimStartNoLeadingSpace(digits);
    }
    ParseUnsignedOfNatToString(n);
    assert digits[0] != '-' && digits[0] != '+' by {
      assert IsDigit(digits[0]);
    }
  }

  /** Distinct numbers render to distinct strings. */
  lemma NatToStringInjective(a: nat, b: nat)
    ensures NatToString(a) == NatToString(b) ==> a == b
  {
    ParseUnsignedOfNatToString(a);
    ParseUnsignedOfNatToString(b);
  }

  /** The digit prefix of a digit string followed by a non-digit is that
      digit string. */
  lemma {:induction false} DigitPrefixStops(d: string, rest: string)
    requires AllDigits(d)
    requires |rest| == 0 || !IsDigit(rest[0])
    ensures DigitPrefix(d + rest, 10) == d
  {
    if |d| > 0 {
      assert (d + rest)[1..] == d[1..] + rest;
      DigitPrefixStops(d[1..], rest);
    } else {
      assert d + rest == rest;
    }
  }

  /** `parseInt` of a number typed with trailing text ("65%", "65 ") reads
      the number and ignores the rest. The one exception is a `0` followed
      by `x` or `X`, which starts a hexadecimal literal. */
  lemma ParseIntOfDigitsThen(n: nat, rest: string)
    requires |rest| == 0 || !IsDigit(rest[0])
    requires n == 0 && |rest| > 0 ==> rest[0] != 'x' && rest[0] != 'X'
    ensures ParseInt(NatToString(n) + rest) == Some(n)
  {
    var digits := NatToString(n);
    var s := digits + rest;
    assert s[0] == digits[0] && IsDigit(s[0]);
    TrimStartNoLeadingSpace(s);
    assert !(s[0] == '-' || s[0] == '+');
    ParseUnsignedOfDigitsThen(n, digits, rest);
  }

  lemma ParseUnsignedOfDigitsThen(n: nat, digits: string, rest: string)
    requires digits == NatToString(n)
    requires |rest| == 0 || !IsDigit(rest[0])
    requires n == 0 && |rest| > 0 ==> rest[0] != 'x' && rest[0] != 'X'
    ensures ParseUnsigned(digits + rest) == Some(n)
  {
    var s := digits + rest;
    assert !(|s| >= 2 && s[0] == '0' && (s[1] == 'x' || s[1] == 'X')) by {
      if |digits| > 1 {
        assert s[1] == digits[1] && IsDigit(s[1]);
      } else if |s| >= 2 {
        assert n < 10 && s[1] == rest[0];
      }
    }
    DigitPrefixStops(digits, rest);
    NatToStringValue(n);
  }

  /** `parseInt` gives NaN when, after leading white space, the text is
      empty or starts with neither a sign nor a digit. */
  lemma ParseIntNaN(s: string)
    requires var t := TrimStart(s); |t| == 0 || !(t[0] == '-' || t[0] == '+' || IsDigit(t[0]))
    ensures ParseInt(s) == None
  {
  }
}
