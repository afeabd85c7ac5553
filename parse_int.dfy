/** The global `parseInt(string, 10)` of ECMAScript (section 19.2.5 of
    ECMA-262), restricted to radix 10: skip leading white space, take one
    optional sign, then read the longest run of decimal digits; no digits
    at all gives NaN. */
module JsParseInt {
  import opened Decimal

  /** What `parseInt` returns: NaN, or an integer. The negative zero of
      `parseInt("-0")` is the integer 0 here; both are falsy in JavaScript. */
  datatype ParsedInt = NaN | Integer(value: int)

  /** The code points ECMAScript strips as leading white space: WhiteSpace
      (tab, vertical tab, form feed, ZWNBSP and the Unicode category Zs) and
      LineTerminator (line feed, carriage return, line and paragraph
      separators). */
  predicate IsJsWhiteSpace(c: char) {
    || c == '\U{9}' || c == '\U{B}' || c == '\U{C}' || c == '\U{FEFF}'
    || c == '\U{20}' || c == '\U{A0}' || c == '\U{1680}'
    || ('\U{2000}' <= c <= '\U{200A}') || c == '\U{202F}' || c == '\U{205F}' || c == '\U{3000}'
    || c == '\U{A}' || c == '\U{D}' || c == '\U{2028}' || c == '\U{2029}'
  }

  /** `s` without its leading white space. */
  function TrimStart(s: string): (r: string)
    ensures |r| <= |s|
    ensures r == [] || !IsJsWhiteSpace(r[0])
  {
    if s != [] && IsJsWhiteSpace(s[0]) then TrimStart(s[1..]) else s
  }

  /** What `TrimStart` removes is white space and what it keeps is the rest
      of the text. */
  lemma {:induction false} TrimStartRemovesWhiteSpace(s: string)
    ensures var r := TrimStart(s);
      && r == s[|s| - |r|..]
      && forall k :: 0 <= k < |s| - |r| ==> IsJsWhiteSpace(s[k])
  {
    if s != [] && IsJsWhiteSpace(s[0]) {
      TrimStartRemovesWhiteSpace(s[1..]);
    }
  }

  /** `s` without one leading `+` or `-`. */
  function DropSign(s: string): string {
    if s != [] && (s[0] == '+' || s[0] == '-') then s[1..] else s
  }

  /** The longest prefix of `s` made only of decimal digits. */
  function DigitPrefix(s: string): (z: string)
    ensures |z| <= |s| && AllDigits(z)
  {
    if s != [] && IsDigit(s[0]) then [s[0]] + DigitPrefix(s[1..]) else []
  }

  /** `DigitPrefix` is a prefix, all digits, and stops only at the end of the
      text or at a character that is not a digit. */
  lemma {:induction false} DigitPrefixIsLongestDigitRun(s: string)
    ensures var z := DigitPrefix(s);
      && z == s[..|z|]
      && (|z| < |s| ==> !IsDigit(s[|z|]))
  {
    if s != [] && IsDigit(s[0]) {
      DigitPrefixIsLongestDigitRun(s[1..]);
    }
  }

  function ParseInt(input: string): ParsedInt {
    ParseSignedDigits(TrimStart(input))
  }

  /** The steps of `parseInt` after the white space is gone: one optional
      sign, then the leading digit run. */
  function ParseSignedDigits(s: string): ParsedInt {
    var negative := s != [] && s[0] == '-';
    var z := DigitPrefix(DropSign(s));
    if z == [] then NaN
    else if negative then Integer(-(DigitsValue(z) as int))
    else Integer(DigitsValue(z))
  }

  /** The digits read are exactly the leading digit run: anything after it,
      when it does not start with a digit, is ignored. */
  lemma {:induction false} DigitPrefixOfDigits(d: string, t: string)
    requires AllDigits(d)
    requires t == [] || !IsDigit(t[0])
    ensures DigitPrefix(d + t) == d
    decreases |d|
  {
    if d != [] {
      assert (d + t)[1..] == d[1..] + t;
      DigitPrefixOfDigits(d[1..], t);
    } else {
      assert d + t == t;
    }
  }

  /** `parseInt` of a digit run followed by non-digit text is the value of
      the digits (`"12abc"` gives 12). */
  lemma ParseIntDigits(d: string, t: string)
    requires d != [] && AllDigits(d)
    requires t == [] || !IsDigit(t[0])
    ensures ParseInt(d + t) == Integer(DigitsValue(d))
  {
    assert (d + t)[0] == d[0];
    assert TrimStart(d + t) == d + t;
    DigitPrefixOfDigits(d, t);
  }

  /** With a leading sign the value is negated for `-` and kept for `+`
      (`"-2"` gives -2). */
  lemma ParseIntSignedDigits(sign: char, d: string, t: string)
    requires sign == '-' || sign == '+'
    requires d != [] && AllDigits(d)
    requires t == [] || !IsDigit(t[0])
    ensures ParseInt([sign] + d + t) == Integer(if sign == '-' then -(DigitsValue(d) as int) else DigitsValue(d))
  {
    var s := [sign] + d + t;
    TrimStartOfNonWhiteSpace(s);
    assert DropSign(s) == d + t;
    DigitPrefixOfDigits(d, t);
  }

  /** Text that does not start with white space is left as it is. */
  lemma TrimStartOfNonWhiteSpace(s: string)
    requires s != [] && !IsJsWhiteSpace(s[0])
    ensures TrimStart(s) == s
  {
  }

  /** Leading white space is what `TrimStart` removes. */
  lemma {:induction false} TrimStartSkipsWhiteSpace(w: string, s: string)
    requires forall k :: 0 <= k < |w| ==> IsJsWhiteSpace(w[k])
    ensures TrimStart(w + s) == TrimStart(s)
    decreases |w|
  {
    if w != [] {
      assert (w + s)[1..] == w[1..] + s;
      TrimStartSkipsWhiteSpace(w[1..], s);
    } else {
      assert w + s == s;
    }
  }

  /** Leading white space is skipped. */
  lemma ParseIntSkipsWhiteSpace(w: string, s: string)
    requires forall k :: 0 <= k < |w| ==> IsJsWhiteSpace(w[k])
    ensures ParseInt(w + s) == ParseInt(s)
  {
    TrimStartSkipsWhiteSpace(w, s);
  }

  /** `parseInt` is NaN exactly when, after the white space and one sign,
      no digit follows (`""`, `"abc"`, `"-"`, `"undefined"`). */
  lemma ParseIntNaN(s: string)
    ensures ParseInt(s) == NaN <==>
      var u := DropSign(TrimStart(s)); u == [] || !IsDigit(u[0])
  {
  }

  /** Text that starts with anything but white space, a sign or a digit
      gives NaN (`"abc"`, `"undefined"`). */
  lemma ParseIntNonNumeric(s: string)
    requires s != [] && !IsJsWhiteSpace(s[0]) && !IsDigit(s[0]) && s[0] != '+' && s[0] != '-'
    ensures ParseInt(s) == NaN
  {
  }

  /** The decimal text the generator writes for a number reads back as
      that number. */
  lemma ParseIntOfNatToString(n: nat)
    ensures ParseInt(NatToString(n)) == Integer(n)
  {
    assert NatToString(n) + [] == NatToString(n);
    ParseIntDigits(NatToString(n), []);
    DigitsValueOfNatToString(n);
  }

  /** The same with a minus sign in front reads back as the negated
      number. */
  lemma ParseIntOfNegatedNatToString(n: nat)
    ensures ParseInt("-" + NatToString(n)) == Integer(-(n as int))
  {
    assert "-" + NatToString(n) == ['-'] + NatToString(n) + [];
    ParseIntSignedDigits('-', NatToString(n), []);
    DigitsValueOfNatToString(n);
  }
}
