/** JavaScript's global `parseInt(string)` called without a radix: skip leading white space,
    read an optional sign, switch to base 16 on a `0x`/`0X` prefix, then read the longest run
    of digits of the base. No digit at all gives `NaN`, written `None` here. */
module JsParseInt {
  import opened Wrappers

  /** The characters `parseInt` trims from the front, by code point: ECMAScript's WhiteSpace
      (tab, vertical tab, form feed, space, ZWNBSP and the other Unicode space separators) and
      LineTerminator (line feed, carriage return, line and paragraph separator). */
  predicate IsWhitespace(c: char)
  {
    var k := c as int;
    (0x09 <= k <= 0x0D) || k == 0x20 || k == 0xA0 || k == 0x1680 || (0x2000 <= k <= 0x200A) ||
    k == 0x2028 || k == 0x2029 || k == 0x202F || k == 0x205F || k == 0x3000 || k == 0xFEFF
  }

  /** Drops the white space at the front of `s`, and nothing else. */
  function TrimStart(s: string): (r: string)
  {
    if s != [] && IsWhitespace(s[0]) then TrimStart(s[1..]) else s
  }

  /** `TrimStart` drops the white space at the front of `s`, and nothing else. */
  lemma {:induction false} TrimStartSpec(s: string)
    ensures var r := TrimStart(s);
            |r| <= |s| && r == s[|s| - |r|..] &&
            (r == [] || !IsWhitespace(r[0])) &&
            forall i :: 0 <= i < |s| - |r| ==> IsWhitespace(s[i])
    decreases |s|
  {
    if s != [] && IsWhitespace(s[0]) {
      TrimStartSpec(s[1..]);
    }
  }

  /** The value of `c` as a digit in bases up to 36; 36 for a character that is no digit. */
  function DigitValue(c: char): (v: nat)
    ensures v <= 36
    ensures v < 10 <==> '0' <= c <= '9'
  {
    if '0' <= c <= '9' then c as int - '0' as int
    else if 'a' <= c <= 'z' then c as int - 'a' as int + 10
    else if 'A' <= c <= 'Z' then c as int - 'A' as int + 10
    else 36
  }

  predicate IsDigit(c: char, radix: nat)
  {
    DigitValue(c) < radix
  }

  /** The longest prefix of `s` made of digits of `radix`. */
  function LeadingDigits(s: string, radix: nat): (d: string)
  {
    if s == [] || !IsDigit(s[0], radix) then [] else [s[0]] + LeadingDigits(s[1..], radix)
  }

  /** `LeadingDigits` is a prefix of digits that no further digit could extend. */
  lemma {:induction false} LeadingDigitsSpec(s: string, radix: nat)
    ensures var d := LeadingDigits(s, radix);
            |d| <= |s| && d == s[..|d|] &&
            (forall i :: 0 <= i < |d| ==> IsDigit(d[i], radix)) &&
            (|d| == |s| || !IsDigit(s[|d|], radix))
    decreases |s|
  {
    if s != [] && IsDigit(s[0], radix) {
      LeadingDigitsSpec(s[1..], radix);
    }
  }

  /** The number that the digit string `d` denotes in base `radix`, most significant first. */
  function DigitsValue(d: string, radix: nat): (v: nat)
  {
    if d == [] then 0 else DigitsValue(d[..|d| - 1], radix) * radix + DigitValue(d[|d| - 1])
  }

  /** The unsigned part of `parseInt`, after white space and sign: a `0x`/`0X` prefix selects
      base 16, otherwise base 10; `None` when no digit of the base follows. */
  function ParseUnsigned(u: string): (v: Option<nat>)
  {
    if |u| >= 2 && u[0] == '0' && (u[1] == 'x' || u[1] == 'X') then
      var d := LeadingDigits(u[2..], 16);
      if d == [] then None else Some(DigitsValue(d, 16))
    else
      var d := LeadingDigits(u, 10);
      if d == [] then None else Some(DigitsValue(d, 10))
  }

  /** `parseInt(s)`. */
  function ParseInt(s: string): (r: Option<int>)
  {
    var t := TrimStart(s);
    if |t| > 0 && (t[0] == '-' || t[0] == '+') then
      match ParseUnsigned(t[1..])
      case None => None
      case Some(v) => Some(if t[0] == '-' then -(v as int) else v)
    else
      match ParseUnsigned(t)
      case None => None
      case Some(v) => Some(v)
  }

  function DecimalDigit(k: nat): (c: char)
    requires k < 10
    ensures DigitValue(c) == k
  {
    ('0' as int + k) as char
  }

  /** The canonical decimal form of `n`: at least one digit, and it denotes `n`. */
  function FormatNat(n: nat): (s: string)
    ensures |s| >= 1
    ensures forall i :: 0 <= i < |s| ==> IsDigit(s[i], 10)
    ensures DigitsValue(s, 10) == n
  {
    if n < 10 then [DecimalDigit(n)]
    else
      var s := FormatNat(n / 10) + [DecimalDigit(n % 10)];
      assert s[..|s| - 1] == FormatNat(n / 10);
      s
  }

  /** The canonical decimal form of `n`, with a leading `-` when it is negative. */
  function FormatInt(n: int): (s: string)
  {
    if n < 0 then "-" + FormatNat(-n) else FormatNat(n)
  }

  /** Skipping white space stops at the first character that is not white space. */
  lemma {:induction false} TrimStartAfterWhitespace(ws: string, rest: string)
    requires forall i :: 0 <= i < |ws| ==> IsWhitespace(ws[i])
    requires rest == [] || !IsWhitespace(rest[0])
    ensures TrimStart(ws + rest) == rest
    decreases |ws|
  {
    if ws == [] {
      assert ws + rest == rest;
    } else {
      assert (ws + rest)[1..] == ws[1..] + rest;
      TrimStartAfterWhitespace(ws[1..], rest);
    }
  }

  /** The digit run read from `x + tail` is `x` when `x` is all digits and `tail` cannot
      continue it. */
  lemma LeadingDigitsOfDigits(x: string, tail: string, radix: nat)
    requires forall i :: 0 <= i < |x| ==> IsDigit(x[i], radix)
    requires tail == [] || !IsDigit(tail[0], radix)
    ensures LeadingDigits(x + tail, radix) == x
  {
    LeadingDigitsSpec(x + tail, radix);
    assert (x + tail)[..|x|] == x;
  }

  /** A run of decimal digits that nothing can extend (not a further digit, nor an `x` that
      would turn a lone `0` into a hex prefix) is read in base 10; leading zeros included. */
  lemma {:induction false} ParseUnsignedDecimal(digits: string, tail: string)
    requires |digits| >= 1 && forall i :: 0 <= i < |digits| ==> IsDigit(digits[i], 10)
    requires tail == [] || !IsDigit(tail[0], 10)
    requires digits == "0" && tail != [] ==> tail[0] != 'x' && tail[0] != 'X'
    ensures ParseUnsigned(digits + tail) == Some(DigitsValue(digits, 10))
  {
    var u := digits + tail;
    if |u| >= 2 {
      if |digits| >= 2 {
        assert u[1] == digits[1];
      } else {
        assert digits == [u[0]] && u[1] == tail[0];
      }
      assert u[0] != '0' || (u[1] != 'x' && u[1] != 'X');
    }
    LeadingDigitsOfDigits(digits, tail, 10);
  }

  /** Regrouping a concatenation of four strings, kept apart from the proofs about `parseInt`
      where the solver would otherwise search for it. */
  lemma Regroup4(a: string, b: string, c: string, d: string)
    ensures a + b + c + d == a + (b + (c + d))
  {
  }

  /** Regrouping a concatenation whose middle is itself a concatenation, likewise. */
  lemma Regroup3(a: string, b: string, c: string, d: string)
    ensures a + (b + c) + d == a + b + c + d
  {
  }

  /** Regrouping a concatenation of five strings, likewise. */
  lemma Regroup5(a: string, b: string, c: string, d: string, e: string)
    ensures a + b + c + d + e == a + (b + (c + d + e))
  {
  }

  /** The pieces of `0x` followed by hex digits and a tail. */
  lemma HexPrefixParts(x: char, hex: string, tail: string)
    ensures var u := ['0', x] + hex + tail;
            |u| >= 2 && u[0] == '0' && u[1] == x && u[2..] == hex + tail
  {
    var u := ['0', x] + hex + tail;
    assert u[2..] == hex + tail;
  }

  /** `0x` or `0X` followed by a run of hex digits that nothing can extend is read in
      base 16. */
  lemma {:induction false} ParseUnsignedHex(x: char, hex: string, tail: string)
    requires x == 'x' || x == 'X'
    requires |hex| >= 1 && forall i :: 0 <= i < |hex| ==> IsDigit(hex[i], 16)
    requires tail == [] || !IsDigit(tail[0], 16)
    ensures ParseUnsigned(['0', x] + hex + tail) == Some(DigitsValue(hex, 16))
  {
    HexPrefixParts(x, hex, tail);
    LeadingDigitsOfDigits(hex, tail, 16);
  }

  /** `parseInt` skips the white space in front, applies the optional sign, and reads the
      unsigned number after it. */
  lemma {:induction false} ParseIntSigned(s: string, ws: string, sign: string, u: string, v: nat)
    requires forall i :: 0 <= i < |ws| ==> IsWhitespace(ws[i])
    requires |sign| <= 1 && (|sign| == 1 ==> sign[0] == '-' || sign[0] == '+')
    requires |u| > 0 && IsDigit(u[0], 10)
    requires ParseUnsigned(u) == Some(v)
    requires s == ws + (sign + u)
    ensures ParseInt(s) == Some(if |sign| == 1 && sign[0] == '-' then -(v as int) else v)
  {
    var t := sign + u;
    assert t[0] == if |sign| == 0 then u[0] else sign[0];
    TrimStartAfterWhitespace(ws, t);
    if |sign| == 0 {
      assert t == u;
    } else {
      assert t[1..] == u;
    }
  }

  /** `parseInt` reads any run of decimal digits, leading zeros included, after any white
      space and an optional sign, and before anything that cannot continue the number. */
  lemma {:induction false} ParseIntReadsDigits(ws: string, sign: string, digits: string, tail: string)
    requires forall i :: 0 <= i < |ws| ==> IsWhitespace(ws[i])
    requires |sign| <= 1 && (|sign| == 1 ==> sign[0] == '-' || sign[0] == '+')
    requires |digits| >= 1 && forall i :: 0 <= i < |digits| ==> IsDigit(digits[i], 10)
    requires tail == [] || !IsDigit(tail[0], 10)
    requires digits == "0" && tail != [] ==> tail[0] != 'x' && tail[0] != 'X'
    ensures var v := DigitsValue(digits, 10);
            ParseInt(ws + sign + digits + tail) == Some(if |sign| == 1 && sign[0] == '-' then -(v as int) else v)
  {
    Regroup4(ws, sign, digits, tail);
    assert (digits + tail)[0] == digits[0];
    ParseUnsignedDecimal(digits, tail);
    var s := ws + sign + digits + tail;
    ParseIntSigned(s, ws, sign, digits + tail, DigitsValue(digits, 10));
  }

  /** `parseInt` reads `0x`/`0X` and a run of hex digits in base 16, after any white space and
      an optional sign. */
  lemma {:induction false} ParseIntReadsHex(ws: string, sign: string, x: char, hex: string, tail: string)
    requires forall i :: 0 <= i < |ws| ==> IsWhitespace(ws[i])
    requires |sign| <= 1 && (|sign| == 1 ==> sign[0] == '-' || sign[0] == '+')
    requires x == 'x' || x == 'X'
    requires |hex| >= 1 && forall i :: 0 <= i < |hex| ==> IsDigit(hex[i], 16)
    requires tail == [] || !IsDigit(tail[0], 16)
    ensures var v := DigitsValue(hex, 16);
            ParseInt(ws + sign + ['0', x] + hex + tail) == Some(if |sign| == 1 && sign[0] == '-' then -(v as int) else v)
  {
    Regroup5(ws, sign, ['0', x], hex, tail);
    ParseUnsignedHex(x, hex, tail);
    var s := ws + sign + ['0', x] + hex + tail;
    ParseIntSigned(s, ws, sign, ['0', x] + hex + tail, DigitsValue(hex, 16));
  }

  /** `parseInt` reads back what `FormatInt` writes, whatever white space precedes it and
      whatever follows that cannot continue the number. */
  lemma {:induction false} ParseIntReadsDecimal(ws: string, n: int, tail: string)
    requires forall i :: 0 <= i < |ws| ==> IsWhitespace(ws[i])
    requires tail == [] || (!IsDigit(tail[0], 10) && tail[0] != 'x' && tail[0] != 'X')
    ensures ParseInt(ws + FormatInt(n) + tail) == Some(n)
  {
    var sign: string := if n < 0 then ['-'] else [];
    var m: nat := if n < 0 then -n else n;
    assert FormatInt(n) == sign + FormatNat(m);
    Regroup3(ws, sign, FormatNat(m), tail);
    ParseIntReadsDigits(ws, sign, FormatNat(m), tail);
  }

  /** `parseInt` gives `NaN` when the unsigned part after the white space and the optional
      sign reads nothing. Without a sign, the unsigned part must not start with white space
      or a sign itself, or `parseInt` would have taken them. */
  lemma {:induction false} ParseIntSignedNaN(s: string, ws: string, sign: string, u: string)
    requires forall i :: 0 <= i < |ws| ==> IsWhitespace(ws[i])
    requires |sign| <= 1 && (|sign| == 1 ==> sign[0] == '-' || sign[0] == '+')
    requires u == [] || |sign| == 1 || (!IsWhitespace(u[0]) && u[0] != '-' && u[0] != '+')
    requires ParseUnsigned(u) == None
    requires s == ws + (sign + u)
    ensures ParseInt(s) == None
  {
    var t := sign + u;
    if |sign| == 1 {
      assert t[0] == sign[0] && t[1..] == u;
    } else {
      assert t == u;
    }
    TrimStartAfterWhitespace(ws, t);
  }

  /** `parseInt` gives `NaN` when, after the white space and the optional sign, the next
      character is no decimal digit: a currency sign, a letter, a second sign, or white space
      after the sign. */
  lemma {:induction false} ParseIntNoLeadingDigit(ws: string, sign: string, rest: string)
    requires forall i :: 0 <= i < |ws| ==> IsWhitespace(ws[i])
    requires |sign| <= 1 && (|sign| == 1 ==> sign[0] == '-' || sign[0] == '+')
    requires rest == [] ||
             (!IsDigit(rest[0], 10) &&
              (|sign| == 1 || (!IsWhitespace(rest[0]) && rest[0] != '-' && rest[0] != '+')))
    ensures ParseInt(ws + sign + rest) == None
  {
    assert ws + sign + rest == ws + (sign + rest);
    ParseUnsignedWithoutDigit(rest);
    ParseIntSignedNaN(ws + sign + rest, ws, sign, rest);
  }

  /** `parseInt` gives `NaN` when a `0x`/`0X` prefix is followed by no hex digit. */
  lemma {:induction false} ParseIntHexWithoutDigits(ws: string, sign: string, x: char, rest: string)
    requires forall i :: 0 <= i < |ws| ==> IsWhitespace(ws[i])
    requires |sign| <= 1 && (|sign| == 1 ==> sign[0] == '-' || sign[0] == '+')
    requires x == 'x' || x == 'X'
    requires rest == [] || !IsDigit(rest[0], 16)
    ensures ParseInt(ws + sign + ['0', x] + rest) == None
  {
    Regroup4(ws, sign, ['0', x], rest);
    var u := ['0', x] + rest;
    assert u[0] == '0' && u[1] == x && u[2..] == rest;
    assert LeadingDigits(rest, 16) == [];
    ParseIntSignedNaN(ws + sign + ['0', x] + rest, ws, sign, u);
  }

  /** Leading zeros do not change the number. */
  lemma LeadingZerosExample()
    ensures ParseInt("007") == Some(7)
  {
    assert [] + [] + "007" + [] == "007";
    assert DigitsValue("007", 10) == 7 by {
      assert "007"[..2] == "00" && "00"[..1] == "0" && "0"[..0] == [];
    }
    ParseIntReadsDigits([], [], "007", []);
  }

  /** White space in front, a `+` sign, and whatever follows the digits. */
  lemma PlusSignExample()
    ensures ParseInt(" +5 %") == Some(5)
  {
    assert " " + ['+'] + "5" + " %" == " +5 %";
    assert DigitsValue("5", 10) == 5 by {
      assert "5"[..0] == [];
    }
    ParseIntReadsDigits(" ", ['+'], "5", " %");
  }

  /** Digits after a decimal point are not read. */
  lemma DecimalPointExample()
    ensures ParseInt("12.5") == Some(12)
  {
    assert [] + [] + "12" + ".5" == "12.5";
    assert DigitsValue("12", 10) == 12 by {
      assert "12"[..1] == "1" && "1"[..0] == [];
    }
    ParseIntReadsDigits([], [], "12", ".5");
  }

  /** A currency sign in front makes the field `NaN`. */
  lemma CurrencyPrefixExample()
    ensures ParseInt("\U{20AC}12") == None
  {
    assert [] + [] + "\U{20AC}12" == "\U{20AC}12";
    ParseIntNoLeadingDigit([], [], "\U{20AC}12");
  }

  /** White space between the sign and the digits makes the field `NaN`. */
  lemma SpaceAfterSignExample()
    ensures ParseInt("- 5") == None
  {
    assert [] + ['-'] + " 5" == "- 5";
    ParseIntNoLeadingDigit([], ['-'], " 5");
  }

  /** A hex prefix followed by no hex digit is `NaN`. */
  lemma BadHexDigitExample()
    ensures ParseInt("0xg") == None
  {
    assert [] + [] + ['0', 'x'] + "g" == "0xg";
    ParseIntHexWithoutDigits([], [], 'x', "g");
  }

  /** A hex prefix switches to base 16. */
  lemma HexExample()
    ensures ParseInt("0x1A") == Some(26)
  {
    assert [] + [] + ['0', 'x'] + "1A" + [] == "0x1A";
    assert DigitsValue("1A", 16) == 26 by {
      assert "1A"[..1] == "1" && "1"[..0] == [];
    }
    ParseIntReadsHex([], [], 'x', "1A", []);
  }

  /** A hex prefix with no hex digit after it is `NaN`. */
  lemma HexPrefixAloneExample()
    ensures ParseInt("0x") == None
  {
    assert TrimStart("0x") == "0x";
    assert LeadingDigits("", 16) == [];
  }

  /** A string without a decimal digit parses to `NaN`: the `0x` prefix itself needs a `0`. */
  lemma ParseIntWithoutDigits(s: string)
    requires forall i :: 0 <= i < |s| ==> !IsDigit(s[i], 10)
    ensures ParseInt(s) == None
  {
    var t := TrimStart(s);
    TrimStartSpec(s);
    var u := if |t| > 0 && (t[0] == '-' || t[0] == '+') then t[1..] else t;
    if |u| > 0 {
      assert u[0] == s[|s| - |u|];
    }
    ParseUnsignedWithoutDigit(u);
  }

  /** The unsigned part is `NaN` unless it starts with a decimal digit. */
  lemma ParseUnsignedWithoutDigit(u: string)
    requires u == [] || !IsDigit(u[0], 10)
    ensures ParseUnsigned(u) == None
  {
  }
}
