/** Decimal text and numbers: the template-literal rendering of an integer and the
    `parseInt(text)` reading used by the record code generators. */
module Numbers {
  import opened Base
  import opened Types

  function DigitChar(d: nat): (c: char)
    requires d < 10
    ensures IsDigit(c)
  {
    (48 + d) as char
  }

  function DigitValue(c: char): (d: nat)
    requires IsDigit(c)
    ensures d < 10 && DigitChar(d) == c
  {
    (c as int - 48) as nat
  }

  /** Decimal rendering of a natural number, without leading zeros. */
  function NatToString(n: nat): (s: string)
    ensures |s| > 0 && AllDigits(s)
    ensures |s| > 1 ==> s[0] != '0'
    decreases n
  {
    if n < 10 then [DigitChar(n)] else NatToString(n / 10) + [DigitChar(n % 10)]
  }

  /** `${i}` for an integer. */
  function IntToString(i: int): string
  {
    if i < 0 then "-" + NatToString(-i) else NatToString(i)
  }

  /** The value of a string of decimal digits, read left to right. */
  function DigitsValue(s: string): nat
    requires AllDigits(s)
  {
    if |s| == 0 then 0 else 10 * DigitsValue(s[..|s| - 1]) + DigitValue(s[|s| - 1])
  }

  lemma {:induction false} DigitsValueOfNatToString(n: nat)
    ensures DigitsValue(NatToString(n)) == n
    decreases n
  {
    if n >= 10 {
      var s := NatToString(n);
      var t := NatToString(n / 10);
      assert s == t + [DigitChar(n % 10)];
      assert s[..|s| - 1] == t;
      DigitsValueOfNatToString(n / 10);
    }
  }

  /** The longest prefix of `s` made of decimal digits. */
  function LeadingDigits(s: string): (d: string)
    ensures AllDigits(d) && d <= s
    ensures |d| < |s| ==> !IsDigit(s[|d|])
  {
    if |s| > 0 && IsDigit(s[0]) then [s[0]] + LeadingDigits(s[1..]) else []
  }

  lemma {:induction false} LeadingDigitsOfDigits(s: string)
    requires AllDigits(s)
    ensures LeadingDigits(s) == s
  {
    if |s| > 0 {
      LeadingDigitsOfDigits(s[1..]);
    }
  }

  /** The white space `parseInt` and `Number` skip: the white-space and line-terminator
      code points of ECMAScript (sections 12.2 and 12.3 of ECMA-262): tab, vertical tab,
      form feed, space, no-break space, the byte order mark, the other space separators
      (category Zs), line feed, carriage return and the line and paragraph separators. */
  predicate IsSpace(c: char)
  {
    c == '\t' || c == '\U{000B}' || c == '\U{000C}' || c == ' ' || c == '\U{00A0}' || c == '\U{FEFF}'
    || c == '\U{1680}' || ('\U{2000}' <= c <= '\U{200A}') || c == '\U{202F}' || c == '\U{205F}' || c == '\U{3000}'
    || c == '\n' || c == '\r' || c == '\U{2028}' || c == '\U{2029}'
  }

  predicate AllSpace(s: string)
  {
    forall i :: 0 <= i < |s| ==> IsSpace(s[i])
  }

  function TrimStart(s: string): (t: string)
    ensures |t| <= |s|
    ensures |t| > 0 ==> !IsSpace(t[0])
  {
    if |s| > 0 && IsSpace(s[0]) then TrimStart(s[1..]) else s
  }

  /** `parseInt(s)` read in base 10: leading white space is skipped, one optional sign is
      read, then the longest run of digits; no digit at all gives NaN (`None`). Without a
      radix, `parseInt` would read a `0x`/`0X` prefix as base 16; the code tails the save
      hooks read never start that way, so that branch is not modelled. */
  function ParseInt(s: string): (r: Option<int>)
  {
    var t := TrimStart(s);
    var negative := |t| > 0 && t[0] == '-';
    var body := if |t| > 0 && (t[0] == '-' || t[0] == '+') then t[1..] else t;
    var digits := LeadingDigits(body);
    var v: int := if |digits| == 0 then 0 else DigitsValue(digits);
    if |digits| == 0 then None else Some(if negative then -v else v)
  }

  /** Reading back a rendered integer gives the integer. */
  lemma ParseIntOfIntToString(i: int)
    ensures ParseInt(IntToString(i)) == Some(i)
  {
    var n: nat := if i < 0 then -i else i;
    DigitsValueOfNatToString(n);
    ParseSigned(NatToString(n), i < 0);
  }

  /** A run of digits, with or without a minus sign in front, reads as its value. */
  lemma {:induction false} ParseSigned(d: string, negative: bool)
    requires AllDigits(d) && |d| > 0
    ensures ParseInt(if negative then "-" + d else d) == Some(if negative then -(DigitsValue(d) as int) else DigitsValue(d))
  {
    var s := if negative then "-" + d else d;
    LeadingDigitsOfDigits(d);
    assert !IsSpace(s[0]) by {
      if !negative { assert IsDigit(d[0]); }
    }
    assert TrimStart(s) == s;
    if negative {
      assert s[0] == '-' && s[1..] == d;
    }
  }

  /** `parseInt` stops at the first non-digit: digits followed by other text read as the digits. */
  lemma {:induction false} LeadingDigitsOfConcat(d: string, rest: string)
    requires AllDigits(d)
    requires |rest| == 0 || !IsDigit(rest[0])
    ensures LeadingDigits(d + rest) == d
  {
    if |d| > 0 {
      assert (d + rest)[1..] == d[1..] + rest;
      LeadingDigitsOfConcat(d[1..], rest);
    } else {
      assert d + rest == rest;
    }
  }

  // ---------------------------------------------------------------- Number(text)

  /** A JavaScript number as `Number(text)` produces it. A finite number carries the exact
      value of the literal; rounding to the nearest double is not modelled. */
  datatype JsNumber = NaN | Finite(value: real) | Infinity(negative: bool)

  function Negate(x: JsNumber): JsNumber
  {
    match x
    case NaN => NaN
    case Finite(v) => Finite(-v)
    case Infinity(n) => Infinity(!n)
  }

  function TrimEnd(s: string): (t: string)
    ensures |t| <= |s|
    ensures |t| > 0 ==> !IsSpace(t[|t| - 1])
  {
    if |s| > 0 && IsSpace(s[|s| - 1]) then TrimEnd(s[..|s| - 1]) else s
  }

  /** `s` without the white space at either end. */
  function Trim(s: string): string
  {
    TrimEnd(TrimStart(s))
  }

  /** The index of the first `a` or `b` in `s`, or `|s|` when there is neither. */
  function IndexOf(s: string, a: char, b: char): (k: nat)
    ensures k <= |s|
    ensures k < |s| ==> s[k] == a || s[k] == b
    ensures forall i :: 0 <= i < k ==> s[i] != a && s[i] != b
  {
    if |s| == 0 || s[0] == a || s[0] == b then 0 else 1 + IndexOf(s[1..], a, b)
  }

  /** The value of a digit in the bases up to 16, and 16 for any other character. */
  function HexValue(c: char): (d: nat)
    ensures d <= 16
  {
    if '0' <= c <= '9' then c as int - '0' as int
    else if 'a' <= c <= 'f' then c as int - 'a' as int + 10
    else if 'A' <= c <= 'F' then c as int - 'A' as int + 10
    else 16
  }

  predicate AllInBase(s: string, base: nat)
  {
    forall i :: 0 <= i < |s| ==> HexValue(s[i]) < base
  }

  function BaseValue(s: string, base: nat): nat
    requires AllInBase(s, base)
  {
    if |s| == 0 then 0 else base * BaseValue(s[..|s| - 1], base) + HexValue(s[|s| - 1])
  }

  /** Digits with at most one decimal point and at least one digit: `12`, `1.5`, `5.`, `.5`. */
  function Mantissa(m: string): Option<real>
  {
    var k := IndexOf(m, '.', '.');
    var whole := m[..k];
    var frac := if k < |m| then m[k + 1..] else "";
    if |whole| + |frac| > 0 && AllDigits(whole) && AllDigits(frac) then
      Some(DigitsValue(whole) as real + Scale(DigitsValue(frac) as real, -|frac|))
    else None
  }

  /** The exponent after the `e`: an optional sign and at least one digit. */
  function Exponent(e: string): Option<int>
  {
    var digits := if |e| > 0 && (e[0] == '+' || e[0] == '-') then e[1..] else e;
    if |digits| > 0 && AllDigits(digits) then
      Some(if e[0] == '-' then -(DigitsValue(digits) as int) else DigitsValue(digits))
    else None
  }

  /** `v` times ten to the power `e`, one factor of ten at a time. */
  function Scale(v: real, e: int): real
    decreases if e >= 0 then e else -e
  {
    if e == 0 then v else if e > 0 then 10.0 * Scale(v, e - 1) else Scale(v, e + 1) / 10.0
  }

  /** An unsigned decimal literal: `Infinity`, or a mantissa with an optional exponent. */
  function UnsignedDecimal(u: string): JsNumber
  {
    if u == "Infinity" then Infinity(false)
    else
      var k := IndexOf(u, 'e', 'E');
      var m := Mantissa(u[..k]);
      var e := if k < |u| then Exponent(u[k + 1..]) else Some(0);
      if m.Some? && e.Some? then Finite(Scale(m.value, e.value)) else NaN
  }

  /** A decimal literal: an optional sign before an unsigned one. */
  function Decimal(t: string): JsNumber
  {
    if |t| > 0 && t[0] == '-' then Negate(UnsignedDecimal(t[1..]))
    else if |t| > 0 && t[0] == '+' then UnsignedDecimal(t[1..])
    else UnsignedDecimal(t)
  }

  /** The base a `0x`, `0o` or `0b` prefix selects (either case), and 0 without one. */
  function RadixOf(t: string): nat
  {
    if |t| < 2 || t[0] != '0' then 0
    else if t[1] == 'x' || t[1] == 'X' then 16
    else if t[1] == 'o' || t[1] == 'O' then 8
    else if t[1] == 'b' || t[1] == 'B' then 2
    else 0
  }

  /** `Number(s)` on a string, after the StringToNumber grammar of section 7.1.4.1 of
      ECMA-262: white space at either end is ignored and nothing left reads as 0; after a
      `0x`, `0o` or `0b` prefix come unsigned digits of that base; otherwise the text must
      be a decimal literal. Any other text is NaN. */
  function ToNumber(s: string): JsNumber
  {
    var t := Trim(s);
    var base := RadixOf(t);
    if t == "" then Finite(0.0)
    else if base != 0 then
      (if |t| > 2 && AllInBase(t[2..], base) then Finite(BaseValue(t[2..], base) as real) else NaN)
    else Decimal(t)
  }

  /** `!isNaN(Number(s))`. */
  predicate IsNumeric(s: string)
  {
    !ToNumber(s).NaN?
  }

  /** In a run of digits, a character that is no digit is never found. */
  lemma NoneInDigits(d: string, a: char, b: char)
    requires AllDigits(d) && !IsDigit(a) && !IsDigit(b)
    ensures IndexOf(d, a, b) == |d|
  {
  }

  /** Digits without a point read as their value. */
  lemma MantissaOfDigits(d: string)
    requires |d| > 0 && AllDigits(d)
    ensures Mantissa(d) == Some(DigitsValue(d) as real)
  {
    NoneInDigits(d, '.', '.');
    assert d[..|d|] == d;
    assert DigitsValue("") == 0;
  }

  /** Digits alone read as their value when unsigned. */
  lemma UnsignedDigits(d: string)
    requires |d| > 0 && AllDigits(d)
    ensures UnsignedDecimal(d) == Finite(DigitsValue(d) as real)
  {
    assert d != "Infinity" by {
      assert IsDigit(d[0]);
    }
    NoneInDigits(d, 'e', 'E');
    assert d[..|d|] == d;
    MantissaOfDigits(d);
  }

  /** A digit is no white space. */
  lemma DigitIsNoSpace(c: char)
    requires IsDigit(c)
    ensures !IsSpace(c)
  {
  }

  /** Text that starts and ends with a character other than white space trims to itself. */
  lemma TrimmedAlready(s: string)
    requires |s| > 0 && !IsSpace(s[0]) && !IsSpace(s[|s| - 1])
    ensures Trim(s) == s
  {
    assert TrimStart(s) == s;
  }

  /** Trimmed text without a base prefix is read as a decimal literal. */
  lemma ReadAsDecimal(s: string)
    requires s != "" && Trim(s) == s && RadixOf(s) == 0
    ensures ToNumber(s) == Decimal(s)
  {
  }

  /** A run of digits has no blank to trim, no base prefix and no sign. */
  lemma DigitsArePlain(d: string)
    requires |d| > 0 && AllDigits(d)
    ensures Trim(d) == d && RadixOf(d) == 0 && Decimal(d) == UnsignedDecimal(d)
  {
    DigitIsNoSpace(d[0]);
    DigitIsNoSpace(d[|d| - 1]);
    TrimmedAlready(d);
    if |d| >= 2 {
      assert IsDigit(d[1]);
    }
  }

  /** A run of decimal digits reads as its value, leading zeros included. */
  lemma DigitsNumber(d: string)
    requires |d| > 0 && AllDigits(d)
    ensures ToNumber(d) == Finite(DigitsValue(d) as real)
  {
    DigitsArePlain(d);
    ReadAsDecimal(d);
    UnsignedDigits(d);
  }

  /** `Number` reads back every rendered integer. */
  lemma NumberOfIntToString(i: int)
    ensures ToNumber(IntToString(i)) == Finite(i as real)
  {
    var n: nat := if i < 0 then -i else i;
    var d := NatToString(n);
    DigitsValueOfNatToString(n);
    if i >= 0 {
      DigitsNumber(d);
    } else {
      var s := "-" + d;
      assert IsDigit(d[|d| - 1]) && s[|s| - 1] == d[|d| - 1];
      assert TrimStart(s) == s;
      assert TrimEnd(s) == s;
      assert s[1..] == d;
      UnsignedDigits(d);
    }
  }

  /** White space in front of a string is skipped. */
  lemma {:induction false} TrimStartSpaces(w: string, x: string)
    requires AllSpace(w)
    ensures TrimStart(w + x) == TrimStart(x)
  {
    if |w| > 0 {
      assert (w + x)[0] == w[0];
      assert (w + x)[1..] == w[1..] + x;
      TrimStartSpaces(w[1..], x);
    } else {
      assert w + x == x;
    }
  }

  /** White space after a string is dropped. */
  lemma {:induction false} TrimEndSpaces(x: string, w: string)
    requires AllSpace(w)
    ensures TrimEnd(x + w) == TrimEnd(x)
    decreases |w|
  {
    if |w| > 0 {
      var y := x + w;
      assert y[|y| - 1] == w[|w| - 1];
      assert y[..|y| - 1] == x + w[..|w| - 1];
      TrimEndSpaces(x, w[..|w| - 1]);
    } else {
      assert x + w == x;
    }
  }

  /** A string of white space trims to nothing. */
  lemma {:induction false} AllSpaceTrims(w: string)
    requires AllSpace(w)
    ensures TrimStart(w) == ""
  {
    if |w| > 0 {
      AllSpaceTrims(w[1..]);
    }
  }

  /** Trailing white space does not survive trimming at both ends. */
  lemma {:induction false} TrimTrailing(s: string, w: string)
    requires AllSpace(w)
    ensures Trim(s + w) == Trim(s)
  {
    if |s| == 0 {
      assert s + w == w;
      AllSpaceTrims(w);
    } else if IsSpace(s[0]) {
      assert (s + w)[0] == s[0];
      assert (s + w)[1..] == s[1..] + w;
      TrimTrailing(s[1..], w);
    } else {
      assert (s + w)[0] == s[0];
      TrimEndSpaces(s, w);
    }
  }

  /** White space around a string does not change what `Number` reads. */
  lemma SurroundingSpace(w1: string, s: string, w2: string)
    requires AllSpace(w1) && AllSpace(w2)
    ensures ToNumber(w1 + s + w2) == ToNumber(s)
  {
    assert w1 + s + w2 == w1 + (s + w2);
    TrimStartSpaces(w1, s + w2);
    TrimTrailing(s, w2);
  }

  /** A blank before or after digits is ignored. */
  lemma PaddedExample()
    ensures ToNumber(" 5") == Finite(5.0) && ToNumber("5 ") == Finite(5.0)
  {
    assert " 5" == " " + "5" + "" && "5 " == "" + "5" + " ";
    SurroundingSpace(" ", "5", "");
    SurroundingSpace("", "5", " ");
    DigitsNumber("5");
  }

  /** A fraction is a number. */
  lemma FractionExample()
    ensures ToNumber("1.5") == Finite(1.5)
  {
    var t := "1.5";
    TrimmedAlready(t);
    ReadAsDecimal(t);
    assert Decimal(t) == UnsignedDecimal(t);
    assert IndexOf(t, 'e', 'E') == 3;
    assert t[..3] == t;
    assert IndexOf(t, '.', '.') == 1;
    assert t[..1] == "1" && t[2..] == "5";
    assert Scale(5.0, -1) == 0.5;
  }

  /** A hexadecimal literal is a number. */
  lemma HexExample()
    ensures ToNumber("0x1F") == Finite(31.0)
  {
    var t := "0x1F";
    TrimmedAlready(t);
    assert RadixOf(t) == 16 && t[2..] == "1F";
    assert BaseValue("1F", 16) == 31 by {
      assert "1F"[..1] == "1";
      assert ""[..0] == "";
    }
  }

  /** Trailing text and a sign before a base prefix make NaN. */
  lemma RefusedExamples()
    ensures !IsNumeric("12abc") && !IsNumeric("+0x1")
  {
    TrailingTextRefused();
    SignedPrefixRefused();
  }

  lemma TrailingTextRefused()
    ensures !IsNumeric("12abc")
  {
    var a := "12abc";
    TrimmedAlready(a);
    ReadAsDecimal(a);
    assert IndexOf(a, 'e', 'E') == 5;
    assert a[..5] == a;
    assert IndexOf(a, '.', '.') == 5;
    assert !AllDigits(a) by {
      assert !IsDigit(a[2]);
    }
  }

  lemma SignedPrefixRefused()
    ensures !IsNumeric("+0x1")
  {
    var b := "+0x1";
    TrimmedAlready(b);
    ReadAsDecimal(b);
    assert b[1..] == "0x1";
    assert IndexOf("0x1", 'e', 'E') == 3;
    assert "0x1"[..3] == "0x1";
    assert IndexOf("0x1", '.', '.') == 3;
    assert !AllDigits("0x1") by {
      assert !IsDigit("0x1"[1]);
    }
  }
}
