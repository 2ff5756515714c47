/**
 The handful of JavaScript built-ins the games and the contact form lean on,
 stated over Dafny strings: `Math.max(min, Math.min(max, n))`, the decimal text
 of an integer (what a template literal `${x}` produces), `parseInt` without a
 radix, ASCII `toLowerCase`, `String.prototype.includes` and the first field of
 `split`.
 */
module JsRuntime {

  datatype Option<+T> = None | Some(value: T)

  /** `Math.max(min, Math.min(max, n))` on integers. */
  function Clamp(n: int, min: int, max: int): (r: int)
    ensures min <= r
    ensures min <= max ==> r <= max
    ensures min <= n <= max ==> r == n
    ensures n < min ==> r == min
    ensures min <= max < n ==> r == max
  {
    var m := if max < n then max else n;
    if min < m then m else min
  }

  // ---------------------------------------------------------------------------
  // Decimal digits

  predicate IsDecimalDigit(c: char) { '0' <= c <= '9' }

  function DigitChar(d: int): (c: char)
    requires 0 <= d < 10
    ensures IsDecimalDigit(c) && DigitValue(c) == d
  {
    "0123456789"[d]
  }

  function DigitValue(c: char): int
    requires IsDecimalDigit(c)
  {
    c as int - '0' as int
  }

  predicate AllDecimalDigits(s: string) {
    forall i :: 0 <= i < |s| ==> IsDecimalDigit(s[i])
  }

  /** The value of a string of decimal digits, most significant digit first. */
  function DecimalValue(s: string): nat
    requires AllDecimalDigits(s)
  {
    if s == [] then 0 else DecimalValue(s[..|s| - 1]) * 10 + DigitValue(s[|s| - 1])
  }

  /**
   The shortest decimal text of a natural number, as JavaScript prints an
   integer below 10^21 (from 10^21 on it switches to exponent notation).
   */
  function NatToString(n: nat): (s: string)
    ensures |s| >= 1 && AllDecimalDigits(s)
    ensures DecimalValue(s) == n
    ensures s[0] == '0' ==> n == 0
    decreases n
  {
    if n < 10 then [DigitChar(n)]
    else
      var p := NatToString(n / 10);
      var s := p + [DigitChar(n % 10)];
      assert s[..|s| - 1] == p;
      s
  }

  /** `${x}` for an integer x: a minus sign, then the digits of |x|. */
  function IntToString(x: int): string {
    if x < 0 then "-" + NatToString(-x) else NatToString(x)
  }

  lemma NatToStringInjective(a: nat, b: nat)
    ensures NatToString(a) == NatToString(b) <==> a == b
  {
  }

  lemma IntToStringInjective(a: int, b: int)
    ensures IntToString(a) == IntToString(b) <==> a == b
  {
    if IntToString(a) == IntToString(b) && a < 0 && b < 0 {
      assert NatToString(-a) == IntToString(a)[1..];
      assert NatToString(-b) == IntToString(b)[1..];
    }
  }

  lemma IntToStringHasNoComma(x: int)
    ensures ',' !in IntToString(x)
  {
    if x < 0 {
      var d := NatToString(-x);
      assert forall i :: 1 <= i < |d| + 1 ==> IntToString(x)[i] == d[i - 1];
    }
  }

  lemma SeparatorAt(a: string, b: string, sep: char)
    ensures (a + [sep] + b)[|a|] == sep
  {
  }

  /**
   Two texts joined by a separator determine their parts, as long as neither
   part contains the separator.
   */
  lemma {:induction false} JoinedBySeparatorInjective(a: string, b: string, c: string, d: string, sep: char)
    requires sep !in a && sep !in c
    requires a + [sep] + b == c + [sep] + d
    ensures a == c && b == d
  {
    var l, r := a + [sep] + b, c + [sep] + d;
    if |a| < |c| {
      SeparatorAt(a, b, sep);
      assert false;
    } else if |c| < |a| {
      SeparatorAt(c, d, sep);
      assert false;
    }
    assert a == l[..|a|] && c == r[..|c|];
    assert b == l[|a| + 1..] && d == r[|c| + 1..];
  }

  // ---------------------------------------------------------------------------
  // parseInt(string) with no radix (ECMAScript's parseInt steps, NaN as None)

  /** WhiteSpace and LineTerminator code points, which parseInt skips first. */
  predicate IsJsWhiteSpace(c: char) {
    c == '\t' || c == '\n' || c == '\U{B}' || c == '\U{C}' || c == '\r' || c == ' '
    || c == '\U{A0}' || c == '\U{1680}' || ('\U{2000}' <= c <= '\U{200A}')
    || c == '\U{2028}' || c == '\U{2029}' || c == '\U{202F}' || c == '\U{205F}'
    || c == '\U{3000}' || c == '\U{FEFF}'
  }

  function TrimStart(s: string): (r: string)
    ensures |r| <= |s| && r == s[|s| - |r|..]
    ensures r == [] || !IsJsWhiteSpace(r[0])
    ensures forall i :: 0 <= i < |s| - |r| ==> IsJsWhiteSpace(s[i])
  {
    if s != [] && IsJsWhiteSpace(s[0]) then TrimStart(s[1..]) else s
  }

  predicate IsHexDigit(c: char) {
    IsDecimalDigit(c) || 'a' <= c <= 'f' || 'A' <= c <= 'F'
  }

  predicate IsRadixDigit(c: char, hex: bool) {
    if hex then IsHexDigit(c) else IsDecimalDigit(c)
  }

  function RadixDigitValue(c: char, hex: bool): (v: nat)
    requires IsRadixDigit(c, hex)
    ensures v < (if hex then 16 else 10)
  {
    if IsDecimalDigit(c) then DigitValue(c)
    else if 'a' <= c <= 'f' then c as int - 'a' as int + 10
    else c as int - 'A' as int + 10
  }

  /** Length of the longest prefix of s made of radix digits. */
  function DigitRun(s: string, hex: bool): (n: nat)
    ensures n <= |s|
    ensures forall i :: 0 <= i < n ==> IsRadixDigit(s[i], hex)
    ensures n < |s| ==> !IsRadixDigit(s[n], hex)
  {
    if s != [] && IsRadixDigit(s[0], hex) then 1 + DigitRun(s[1..], hex) else 0
  }

  function RadixValue(s: string, hex: bool): nat
    requires forall i :: 0 <= i < |s| ==> IsRadixDigit(s[i], hex)
  {
    if s == [] then 0
    else RadixValue(s[..|s| - 1], hex) * (if hex then 16 else 10) + RadixDigitValue(s[|s| - 1], hex)
  }

  /** What parseInt reads before the digits: the sign, and whether a "0x" prefix selects base 16. */
  datatype NumeralText = NumeralText(negative: bool, hex: bool, digits: string)

  function SplitNumeral(s: string): (p: NumeralText)
    ensures |p.digits| <= |s|
  {
    SplitTrimmed(TrimStart(s))
  }

  /** SplitNumeral once the leading white space is gone. */
  function SplitTrimmed(t: string): (p: NumeralText)
    ensures |p.digits| <= |t|
  {
    var negative := t != [] && t[0] == '-';
    var u := if t != [] && (t[0] == '-' || t[0] == '+') then t[1..] else t;
    var hex := |u| >= 2 && u[0] == '0' && (u[1] == 'x' || u[1] == 'X');
    NumeralText(negative, hex, if hex then u[2..] else u)
  }

  /** `parseInt(s)`: None stands for NaN. */
  function ParseInt(s: string): (r: Option<int>)
    ensures r.None? <==> DigitRun(SplitNumeral(s).digits, SplitNumeral(s).hex) == 0
  {
    ReadDigits(SplitNumeral(s))
  }

  /** The value of the longest run of digits of the selected base, negated after '-'; None when the run is empty. */
  function ReadDigits(p: NumeralText): (r: Option<int>)
    ensures r.None? <==> DigitRun(p.digits, p.hex) == 0
  {
    var n := DigitRun(p.digits, p.hex);
    if n == 0 then None
    else
      var v: int := RadixValue(p.digits[..n], p.hex);
      Some(if p.negative then -v else v)
  }

  lemma {:induction false} DecimalRadixValue(s: string)
    requires AllDecimalDigits(s)
    ensures RadixValue(s, false) == DecimalValue(s)
  {
    if s != [] {
      DecimalRadixValue(s[..|s| - 1]);
    }
  }

  /**
   parseInt reads back the decimal text of a natural number, and ignores
   whatever follows it once a character that is no digit (and no 'x' that
   could turn "0" into a hexadecimal prefix) ends the digits.
   */
  lemma ParseIntOfDecimal(n: nat, rest: string)
    requires rest == [] || (!IsDecimalDigit(rest[0]) && rest[0] != 'x' && rest[0] != 'X')
    ensures ParseInt(NatToString(n) + rest) == Some(n)
  {
    var d := NatToString(n);
    var s := d + rest;
    assert s[0] == d[0];
    assert |s| >= 2 ==> s[1] != 'x' && s[1] != 'X' by {
      if |d| >= 2 { assert s[1] == d[1]; } else if |s| >= 2 { assert s[1] == rest[0]; }
    }
    ParseIntOfDigits(s);
    DigitRunOfDigits(d, rest, false);
    assert s[..|d|] == d;
    DecimalRadixValue(d);
  }

  /** A text that starts with a decimal digit and no "0x" prefix is read in base ten. */
  lemma ParseIntOfDigits(s: string)
    requires s != [] && IsDecimalDigit(s[0])
    requires |s| >= 2 ==> s[1] != 'x' && s[1] != 'X'
    ensures ParseInt(s) == Some(RadixValue(s[..DigitRun(s, false)], false))
  {
    SplitNumeralOfDigits(s);
  }

  lemma SplitNumeralOfDigits(s: string)
    requires s != [] && IsDecimalDigit(s[0])
    requires |s| >= 2 ==> s[1] != 'x' && s[1] != 'X'
    ensures SplitNumeral(s) == NumeralText(false, false, s)
  {
    assert !IsJsWhiteSpace(s[0]);
    assert TrimStart(s) == s;
  }

  lemma {:induction false} DigitRunOfDigits(d: string, rest: string, hex: bool)
    requires forall i :: 0 <= i < |d| ==> IsRadixDigit(d[i], hex)
    requires rest == [] || !IsRadixDigit(rest[0], hex)
    ensures DigitRun(d + rest, hex) == |d|
  {
    if d != [] {
      assert (d + rest)[1..] == d[1..] + rest;
      DigitRunOfDigits(d[1..], rest, hex);
    }
  }

  /** parseInt's first step drops exactly the leading white space. */
  lemma {:induction false} TrimStartOfWhiteSpace(ws: string, t: string)
    requires forall i :: 0 <= i < |ws| ==> IsJsWhiteSpace(ws[i])
    requires t == [] || !IsJsWhiteSpace(t[0])
    ensures TrimStart(ws + t) == t
  {
    if ws == [] {
      assert ws + t == t;
    } else {
      assert (ws + t)[1..] == ws[1..] + t;
      TrimStartOfWhiteSpace(ws[1..], t);
    }
  }

  /** The sign and base prefix parseInt recognises after leading white space. */
  predicate IsSign(sign: string) {
    sign == "" || sign == "-" || sign == "+"
  }

  predicate IsBasePrefix(prefix: string) {
    prefix == "" || prefix == "0x" || prefix == "0X"
  }

  /**
   Leading white space, then an optional sign, then an optional "0x"/"0X",
   then digits of the selected base: SplitNumeral skips the white space, reads
   the sign (only '-' negates), selects base 16 exactly when the prefix is
   there, and hands on the rest.
   */
  lemma SplitNumeralOfSigned(ws: string, sign: string, prefix: string, d: string, rest: string)
    requires forall i :: 0 <= i < |ws| ==> IsJsWhiteSpace(ws[i])
    requires IsSign(sign) && IsBasePrefix(prefix)
    requires d != [] && forall i :: 0 <= i < |d| ==> IsRadixDigit(d[i], prefix != "")
    requires prefix == "" && d == "0" ==> rest == [] || (rest[0] != 'x' && rest[0] != 'X')
    ensures SplitNumeral(ws + (sign + (prefix + (d + rest)))) == NumeralText(sign == "-", prefix != "", d + rest)
    ensures ParseInt(ws + (sign + (prefix + (d + rest)))) == ReadDigits(NumeralText(sign == "-", prefix != "", d + rest))
  {
    assert IsRadixDigit(d[0], prefix != "");
    assert prefix == "" ==> !(|d + rest| >= 2 && d[0] == '0' && ((d + rest)[1] == 'x' || (d + rest)[1] == 'X')) by {
      if prefix == "" && |d + rest| >= 2 && d[0] == '0' {
        if |d| >= 2 {
          assert (d + rest)[1] == d[1] && IsDecimalDigit(d[1]);
        } else {
          assert d == "0" && (d + rest)[1] == rest[0];
        }
      }
    }
    var e := d + rest;
    var u := prefix + e;
    var t := sign + u;
    assert u[0] == (if prefix == "" then d[0] else '0');
    assert t[0] == (if sign == "" then u[0] else sign[0]);
    SplitNumeralSkipsWhiteSpace(ws, t);
    SplitTrimmedOfPrefixed(sign, prefix, e);
  }

  lemma SplitNumeralSkipsWhiteSpace(ws: string, t: string)
    requires forall i :: 0 <= i < |ws| ==> IsJsWhiteSpace(ws[i])
    requires t == [] || !IsJsWhiteSpace(t[0])
    ensures SplitNumeral(ws + t) == SplitTrimmed(t)
  {
    TrimStartOfWhiteSpace(ws, t);
  }

  lemma SplitTrimmedOfPrefixed(sign: string, prefix: string, e: string)
    requires IsSign(sign) && IsBasePrefix(prefix)
    requires prefix + e != [] && (prefix + e)[0] != '-' && (prefix + e)[0] != '+'
    requires prefix == "" ==> !(|e| >= 2 && e[0] == '0' && (e[1] == 'x' || e[1] == 'X'))
    ensures SplitTrimmed(sign + (prefix + e)) == NumeralText(sign == "-", prefix != "", e)
  {
    var u := prefix + e;
    var t := sign + u;
    SplitTrimmedAfterSign(sign, u);
    if prefix != "" {
      assert u[0] == '0' && u[1] == prefix[1];
      assert u[2..] == e;
    } else {
      assert u == e;
    }
  }

  /** After a sign, SplitTrimmed looks at what follows it. */
  lemma SplitTrimmedAfterSign(sign: string, u: string)
    requires IsSign(sign) && u != [] && u[0] != '-' && u[0] != '+'
    ensures var t := sign + u;
      (t != [] && (t[0] == '-' || t[0] == '+') <==> sign != "")
      && (t != [] && t[0] == '-' <==> sign == "-")
      && (if sign == "" then t else t[1..]) == u
  {
    if sign != "" {
      assert (sign + u)[0] == sign[0];
      assert (sign + u)[1..] == u;
    }
  }

  /**
   parseInt of white space, an optional sign and a run of decimal digits,
   ended by the end of the text or by a character that is no digit (and, after
   a lone "0", no 'x' that would make it a base prefix): the value of the
   digits, negated after a '-'.
   */
  lemma ParseIntOfDecimalNumeral(ws: string, sign: string, d: string, rest: string)
    requires forall i :: 0 <= i < |ws| ==> IsJsWhiteSpace(ws[i])
    requires IsSign(sign)
    requires d != [] && AllDecimalDigits(d)
    requires rest == [] || !IsDecimalDigit(rest[0])
    requires d == "0" ==> rest == [] || (rest[0] != 'x' && rest[0] != 'X')
    ensures var v: int := DecimalValue(d);
      ParseInt(ws + (sign + (d + rest))) == Some(if sign == "-" then -v else v)
  {
    assert "" + (d + rest) == d + rest;
    SplitNumeralOfSigned(ws, sign, "", d, rest);
    ReadDigitsOfDecimalRun(sign == "-", d, rest);
  }

  /** A full run of decimal digits followed by a non-digit is read as its decimal value. */
  lemma ReadDigitsOfDecimalRun(negative: bool, d: string, rest: string)
    requires d != [] && AllDecimalDigits(d)
    requires rest == [] || !IsDecimalDigit(rest[0])
    ensures var v: int := DecimalValue(d);
      ReadDigits(NumeralText(negative, false, d + rest)) == Some(if negative then -v else v)
  {
    ReadDigitsOfRun(negative, false, d, rest);
    DecimalRadixValue(d);
  }

  /** The same for the decimal text of a natural number: parseInt reads back n, or -n after a '-'. */
  lemma ParseIntOfSignedNat(ws: string, sign: string, n: nat, rest: string)
    requires forall i :: 0 <= i < |ws| ==> IsJsWhiteSpace(ws[i])
    requires IsSign(sign)
    requires rest == [] || (!IsDecimalDigit(rest[0]) && rest[0] != 'x' && rest[0] != 'X')
    ensures ParseInt(ws + (sign + (NatToString(n) + rest))) == Some(if sign == "-" then -(n as int) else n)
  {
    ParseIntOfDecimalNumeral(ws, sign, NatToString(n), rest);
  }

  /**
   parseInt of white space, an optional sign, "0x" or "0X" and a run of
   hexadecimal digits ended by the end of the text or by a character that is
   no hexadecimal digit: the base-16 value of the digits, negated after a '-'.
   */
  lemma ParseIntOfHexNumeral(ws: string, sign: string, prefix: string, d: string, rest: string)
    requires forall i :: 0 <= i < |ws| ==> IsJsWhiteSpace(ws[i])
    requires IsSign(sign) && (prefix == "0x" || prefix == "0X")
    requires d != [] && forall i :: 0 <= i < |d| ==> IsHexDigit(d[i])
    requires rest == [] || !IsHexDigit(rest[0])
    ensures var v: int := RadixValue(d, true);
      ParseInt(ws + (sign + (prefix + (d + rest)))) == Some(if sign == "-" then -v else v)
  {
    ReadDigitsOfRun(sign == "-", true, d, rest);
    SplitNumeralOfSigned(ws, sign, prefix, d, rest);
  }

  /** A full run of digits followed by a non-digit is read as the value of those digits. */
  lemma ReadDigitsOfRun(negative: bool, hex: bool, d: string, rest: string)
    requires d != [] && forall i :: 0 <= i < |d| ==> IsRadixDigit(d[i], hex)
    requires rest == [] || !IsRadixDigit(rest[0], hex)
    ensures var v: int := RadixValue(d, hex);
      ReadDigits(NumeralText(negative, hex, d + rest)) == Some(if negative then -v else v)
  {
    var p := NumeralText(negative, hex, d + rest);
    DigitRunOfDigits(d, rest, hex);
    assert p.digits[..DigitRun(p.digits, p.hex)] == d;
    var v: int := RadixValue(d, hex);
    assert ReadDigits(p) == Some(if negative then -v else v);
  }

  /** "0x14" is read in base 16, as twenty. */
  lemma ParseIntOfHexTwenty()
    ensures ParseInt("0x14") == Some(20)
  {
    var text: string := "0x14";
    assert text == "" + ("" + ("0x" + ("14" + "")));
    assert RadixValue("14", true) == 20 by {
      assert "14"[..1] == "1";
    }
    ParseIntOfHexNumeral("", "", "0x", "14", "");
  }

  // ---------------------------------------------------------------------------
  // String utilities

  /** ASCII case folding; other characters are kept as they are. */
  function LowerChar(c: char): (r: char)
    ensures 'A' <= c <= 'Z' ==> 'a' <= r <= 'z' && r as int == c as int + 32
    ensures !('A' <= c <= 'Z') ==> r == c
  {
    if 'A' <= c <= 'Z' then (c as int + 32) as char else c
  }

  function ToLower(s: string): (r: string)
    ensures |r| == |s|
    ensures forall i :: 0 <= i < |s| ==> r[i] == LowerChar(s[i])
  {
    if s == [] then [] else [LowerChar(s[0])] + ToLower(s[1..])
  }

  predicate OccursAt(s: string, t: string, i: int) {
    0 <= i <= |s| - |t| && s[i..i + |t|] == t
  }

  lemma OccursShift(s: string, t: string, i: nat)
    requires s != []
    ensures OccursAt(s, t, i + 1) <==> OccursAt(s[1..], t, i)
  {
    if i + 1 <= |s| - |t| {
      assert s[i + 1..i + 1 + |t|] == s[1..][i..i + |t|];
    }
  }

  /** `s.includes(t)`: t occurs in s at some position. */
  function Contains(s: string, t: string): (r: bool)
    ensures r <==> exists i :: OccursAt(s, t, i)
    decreases |s|
  {
    if |t| > |s| then false
    else if s[..|t|] == t then assert OccursAt(s, t, 0); true
    else
      var r := Contains(s[1..], t);
      assert r ==> exists i :: OccursAt(s, t, i) by {
        if r {
          var j :| OccursAt(s[1..], t, j);
          OccursShift(s, t, j);
        }
      }
      assert !r ==> forall i :: !OccursAt(s, t, i) by {
        if !r {
          forall i ensures !OccursAt(s, t, i) {
            if i >= 1 { OccursShift(s, t, i - 1); }
          }
        }
      }
      r
  }

  /** `s.split(sep)[0]`: the text before the first separator, or all of s. */
  function BeforeFirst(s: string, sep: char): (r: string)
    ensures |r| <= |s| && r == s[..|r|]
    ensures sep !in r
    ensures |r| < |s| ==> s[|r|] == sep
  {
    if s == [] || s[0] == sep then [] else [s[0]] + BeforeFirst(s[1..], sep)
  }
}
