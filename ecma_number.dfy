/**
 * The two ECMAScript number parsers the row coercion relies on, `parseInt(s, 10)`
 * (section 19.2.5 of ECMA-262) and `parseFloat(s)` (section 19.2.4 of ECMA-262),
 * and the UTF-16 length that `.length` reports on a JavaScript string.
 *
 * Both parsers are prefix parsers: they skip leading white space, take an optional
 * sign and read the longest numeric prefix; without one the answer is NaN, here `None`.
 */
module EcmaNumber {
  import opened Wrappers

  /** The code points TrimString removes: WhiteSpace (section 12.2) and LineTerminator (section 12.3). */
  predicate IsStrWhiteSpace(c: char) {
    var n := c as int;
    // TAB, LF, VT, FF, CR
    (0x09 <= n <= 0x0D)
    // SPACE, NO-BREAK SPACE, OGHAM SPACE MARK, EN QUAD .. HAIR SPACE
    || n == 0x20 || n == 0xA0 || n == 0x1680 || (0x2000 <= n <= 0x200A)
    // LINE SEPARATOR, PARAGRAPH SEPARATOR, NARROW NO-BREAK SPACE, MEDIUM MATHEMATICAL SPACE
    || n == 0x2028 || n == 0x2029 || n == 0x202F || n == 0x205F
    // IDEOGRAPHIC SPACE, ZERO WIDTH NO-BREAK SPACE
    || n == 0x3000 || n == 0xFEFF
  }

  predicate IsDecimalDigit(c: char) {
    '0' <= c <= '9'
  }

  predicate AllDigits(z: string) {
    forall i :: 0 <= i < |z| ==> IsDecimalDigit(z[i])
  }

  /** TrimString(s, start): what is removed is white space, and what is left does not start with any. */
  function TrimStart(s: string): (r: string)
    ensures |r| <= |s| && r == s[|s| - |r|..]
    ensures forall i :: 0 <= i < |s| - |r| ==> IsStrWhiteSpace(s[i])
    ensures r == [] || !IsStrWhiteSpace(r[0])
  {
    if s != [] && IsStrWhiteSpace(s[0]) then TrimStart(s[1..]) else s
  }

  /** Steps 3-4 of parseInt: the sign, and the text after at most one '+' or '-'. */
  function SplitSign(t: string): (int, string) {
    if t != [] && t[0] == '-' then (-1, t[1..])
    else if t != [] && t[0] == '+' then (1, t[1..])
    else (1, t)
  }

  /** The longest prefix made of decimal digits (step 8 of parseInt with radix 10). */
  function DigitPrefix(s: string): (z: string)
    ensures |z| <= |s| && z == s[..|z|]
    ensures AllDigits(z)
    ensures |z| == |s| || !IsDecimalDigit(s[|z|])
  {
    if s != [] && IsDecimalDigit(s[0]) then [s[0]] + DigitPrefix(s[1..]) else []
  }

  function DigitValue(c: char): nat
    requires IsDecimalDigit(c)
  {
    c as int - '0' as int
  }

  function DigitChar(d: nat): char
    requires d < 10
  {
    ('0' as int + d) as char
  }

  /** The mathematical value of a string of decimal digits, most significant first. */
  function DecimalValue(z: string): nat
    requires AllDigits(z)
  {
    if z == [] then 0 else DecimalValue(z[..|z| - 1]) * 10 + DigitValue(z[|z| - 1])
  }

  /**
   * parseInt(s, 10). A number is found exactly when a decimal digit follows the
   * leading white space and the optional sign. The value -0 is modelled as 0, and
   * the rounding of very long digit strings to the nearest double is not modelled.
   */
  function ParseInt(s: string): (r: Option<int>)
    ensures r.Some? <==> var u := SplitSign(TrimStart(s)).1; u != [] && IsDecimalDigit(u[0])
  {
    var (sign, u) := SplitSign(TrimStart(s));
    var z := DigitPrefix(u);
    if z == [] then None else Some(sign * DecimalValue(z))
  }

  /** The decimal text of a natural number, as Number::toString writes an integer. */
  function ShowNat(n: nat): (s: string)
    ensures s != [] && AllDigits(s)
  {
    if n < 10 then [DigitChar(n)] else ShowNat(n / 10) + [DigitChar(n % 10)]
  }

  function ShowInt(n: int): string {
    if n < 0 then "-" + ShowNat(-n) else ShowNat(n)
  }

  lemma {:induction false} DecimalValueOfShowNat(n: nat)
    ensures DecimalValue(ShowNat(n)) == n
  {
    if n >= 10 {
      var s := ShowNat(n);
      assert s[..|s| - 1] == ShowNat(n / 10);
      DecimalValueOfShowNat(n / 10);
    }
  }

  /** The digit-prefix scan stops exactly at the end of a run of digits. */
  lemma {:induction false} DigitPrefixOfDigitsThen(d: string, t: string)
    requires AllDigits(d)
    requires t == [] || !IsDecimalDigit(t[0])
    ensures DigitPrefix(d + t) == d
  {
    if d != [] {
      assert (d + t)[1..] == d[1..] + t;
      DigitPrefixOfDigitsThen(d[1..], t);
    }
  }

  /** The scan of parseInt on a text that starts with a sign or a digit, ahead of a run of digits. */
  lemma ParseIntOfSignedDigits(sign: string, digits: string, t: string)
    requires sign == "" || sign == "-" || sign == "+"
    requires digits != [] && AllDigits(digits)
    requires t == [] || !IsDecimalDigit(t[0])
    ensures ParseInt(sign + digits + t) == Some((if sign == "-" then -1 else 1) * DecimalValue(digits))
  {
    var s := sign + digits + t;
    assert s[0] == (if sign == "" then digits[0] else sign[0]);
    assert TrimStart(s) == s;
    assert SplitSign(s).1 == digits + t by {
      if sign != "" {
        assert s[1..] == digits + t;
      } else {
        assert s == digits + t;
      }
    }
    DigitPrefixOfDigitsThen(digits, t);
  }

  /**
   * parseInt reads back any integer written in decimal, whatever non-digit text
   * follows: ParseInt("5.9") is 5 and ParseInt("10 pcs") is 10.
   */
  lemma ParseIntOfShowInt(n: int, t: string)
    requires t == [] || !IsDecimalDigit(t[0])
    ensures ParseInt(ShowInt(n) + t) == Some(n)
  {
    var m: nat := if n < 0 then -n else n;
    DecimalValueOfShowNat(m);
    if n < 0 {
      ParseIntOfSignedDigits("-", ShowNat(m), t);
    } else {
      ParseIntOfSignedDigits("", ShowNat(m), t);
      assert "" + ShowNat(m) == ShowInt(n);
    }
  }

  /** parseInt is NaN on a text whose first character is neither white space, a sign nor a digit. */
  lemma ParseIntNaNAtFront(s: string)
    requires s != [] && !IsStrWhiteSpace(s[0]) && !IsDecimalDigit(s[0]) && s[0] != '+' && s[0] != '-'
    ensures ParseInt(s).None?
  {
    assert TrimStart(s) == s;
  }

  /** Leading white space never changes what parseInt or parseFloat see. */
  lemma {:induction false} TrimStartSkipsWhiteSpace(w: string, s: string)
    requires forall i :: 0 <= i < |w| ==> IsStrWhiteSpace(w[i])
    ensures TrimStart(w + s) == TrimStart(s)
  {
    if w != [] {
      assert (w + s)[0] == w[0] && IsStrWhiteSpace(w[0]);
      assert (w + s)[1..] == w[1..] + s;
      TrimStartSkipsWhiteSpace(w[1..], s);
    } else {
      assert w + s == s;
    }
  }
  /** parseInt ignores leading white space. */
  lemma ParseIntSkipsWhiteSpace(w: string, s: string)
    requires forall i :: 0 <= i < |w| ==> IsStrWhiteSpace(w[i])
    ensures ParseInt(w + s) == ParseInt(s)
  {
    TrimStartSkipsWhiteSpace(w, s);
  }


  // ---------------------------------------------------------------------------
  // parseFloat: only whether it finds a number (its double value is not modelled)
  // ---------------------------------------------------------------------------

  /** ExponentPart: 'e' or 'E', an optional sign, and at least one digit. */
  predicate IsExponentPart(e: string) {
    |e| >= 2 && (e[0] == 'e' || e[0] == 'E') &&
    var k := if e[1] == '+' || e[1] == '-' then 2 else 1;
    k < |e| && AllDigits(e[k..])
  }

  predicate IsOptionalExponent(e: string) {
    e == [] || IsExponentPart(e)
  }

  /**
   * StrUnsignedDecimalLiteral of ECMA-262 (ToNumber applied to strings):
   * Infinity, or DecimalDigits [. DecimalDigits?] ExponentPart?, or . DecimalDigits ExponentPart?.
   * A run of digits is read greedily; the grammar allows no other split, since
   * what follows a run of digits must be '.', an exponent or the end.
   */
  predicate IsStrUnsignedDecimalLiteral(p: string) {
    p == "Infinity" ||
    var a := DigitPrefix(p);
    var r := p[|a|..];
    if a != [] then
      IsOptionalExponent(r) ||
      (r[0] == '.' && IsOptionalExponent(r[1 + |DigitPrefix(r[1..])|..]))
    else
      |r| >= 2 && r[0] == '.' && IsDecimalDigit(r[1]) &&
      IsOptionalExponent(r[1 + |DigitPrefix(r[1..])|..])
  }

  /** StrDecimalLiteral: an optional sign followed by StrUnsignedDecimalLiteral. */
  predicate IsStrDecimalLiteral(p: string) {
    if p != [] && (p[0] == '+' || p[0] == '-') then IsStrUnsignedDecimalLiteral(p[1..])
    else IsStrUnsignedDecimalLiteral(p)
  }

  /** Step 3 of parseFloat: NaN unless some prefix of the trimmed text is a StrDecimalLiteral. */
  ghost predicate ParseFloatFindsNumber(s: string) {
    var t := TrimStart(s);
    exists k :: 0 <= k <= |t| && IsStrDecimalLiteral(t[..k])
  }

  /** The text after one optional '+' or '-', and the length of that sign. */
  function Unsigned(t: string): (string, nat) {
    if t != [] && (t[0] == '+' || t[0] == '-') then (t[1..], 1) else (t, 0)
  }

  /** "Infinity", a digit, or a '.' followed by a digit. */
  predicate StartsNumeric(u: string) {
    (|u| >= 8 && u[..8] == "Infinity") ||
    (|u| >= 1 && IsDecimalDigit(u[0])) ||
    (|u| >= 2 && u[0] == '.' && IsDecimalDigit(u[1]))
  }

  /** parseFloat(s) is not NaN: what follows the white space and one optional sign starts a number. */
  predicate HasFloatPrefix(s: string) {
    StartsNumeric(Unsigned(TrimStart(s)).0)
  }
  /** A text that starts with a digit holds a number for parseFloat. */
  lemma DigitFirstHasFloatPrefix(s: string)
    requires s != [] && IsDecimalDigit(s[0])
    ensures HasFloatPrefix(s)
  {
    assert TrimStart(s) == s;
    assert Unsigned(s).0 == s;
  }

  /**
   * A text that starts with a character that begins no number (not white space, a
   * sign, a digit, '.' or the 'I' of "Infinity") holds a number for neither parser.
   */
  lemma NoNumberAtFront(s: string)
    requires s != [] && !IsStrWhiteSpace(s[0]) && !IsDecimalDigit(s[0])
    requires s[0] != '+' && s[0] != '-' && s[0] != '.' && s[0] != 'I'
    ensures !HasFloatPrefix(s) && ParseInt(s).None?
  {
    assert TrimStart(s) == s;
    assert Unsigned(s).0 == s;
    ParseIntNaNAtFront(s);
  }


  /** What an unsigned literal at the front of a text says about its first characters. */
  lemma UnsignedLiteralPrefix(u: string, k: nat)
    requires k <= |u| && IsStrUnsignedDecimalLiteral(u[..k])
    ensures StartsNumeric(u)
  {
    var p := u[..k];
    if p == "Infinity" {
      assert u[..8] == p;
    } else {
      var a := DigitPrefix(p);
      if a != [] {
        assert u[0] == p[0];
      } else {
        assert p[1] == u[1];
      }
    }
  }

  /** What a literal at the front of a text says about the text after its sign. */
  lemma LiteralPrefix(t: string, k: nat)
    requires k <= |t| && IsStrDecimalLiteral(t[..k])
    ensures StartsNumeric(Unsigned(t).0)
  {
    var p := t[..k];
    assert p != [] by {
      assert DigitPrefix([]) == [];
    }
    assert t[0] == p[0];
    if p[0] == '+' || p[0] == '-' {
      assert p[1..] == t[1..][..k - 1];
      UnsignedLiteralPrefix(t[1..], k - 1);
    } else {
      assert Unsigned(t).0 == t;
      UnsignedLiteralPrefix(t, k);
    }
  }

  /** A literal prefix exists whenever the first-characters test passes. */
  lemma FloatPrefixHasLiteral(s: string)
    requires HasFloatPrefix(s)
    ensures ParseFloatFindsNumber(s)
  {
    var t := TrimStart(s);
    var (u, n) := Unsigned(t);
    var j := if |u| >= 8 && u[..8] == "Infinity" then 8
             else if IsDecimalDigit(u[0]) then 1 else 2;
    var q := u[..j];
    if j == 1 {
      assert DigitPrefix(q) == q;
      assert IsStrUnsignedDecimalLiteral(q);
    } else if j == 2 {
      assert q[1..] == [u[1]];
      assert DigitPrefix(q) == [];
      assert DigitPrefix(q[1..]) == [u[1]];
      assert IsStrUnsignedDecimalLiteral(q);
    }
    var p := t[..n + j];
    if n == 1 {
      assert p[1..] == q;
    } else {
      assert p == q;
    }
    assert IsStrDecimalLiteral(p);
  }

  /** A literal prefix passes the first-characters test. */
  lemma LiteralHasFloatPrefix(s: string)
    requires ParseFloatFindsNumber(s)
    ensures HasFloatPrefix(s)
  {
    var t := TrimStart(s);
    var k :| 0 <= k <= |t| && IsStrDecimalLiteral(t[..k]);
    LiteralPrefix(t, k);
  }

  /** The first-characters test decides parseFloat's NaN exactly as the grammar does. */
  lemma HasFloatPrefixIsParseFloat(s: string)
    ensures HasFloatPrefix(s) <==> ParseFloatFindsNumber(s)
  {
    if HasFloatPrefix(s) {
      FloatPrefixHasLiteral(s);
    }
    if ParseFloatFindsNumber(s) {
      LiteralHasFloatPrefix(s);
    }
  }

  /** Whenever parseInt finds an integer, parseFloat finds a number too. */
  lemma ParseIntImpliesFloatPrefix(s: string)
    requires ParseInt(s).Some?
    ensures HasFloatPrefix(s)
  {
  }

  // ---------------------------------------------------------------------------
  // String length as JavaScript counts it
  // ---------------------------------------------------------------------------

  /** `.length` of a JavaScript string: code points above U+FFFF take two UTF-16 code units. */
  function Utf16Length(s: string): (n: nat)
    ensures |s| <= n <= 2 * |s|
  {
    if s == [] then 0 else (if s[0] as int > 0xFFFF then 2 else 1) + Utf16Length(s[1..])
  }

  /** For text in the Basic Multilingual Plane the UTF-16 length is the number of characters. */
  lemma {:induction false} Utf16LengthOfBmp(s: string)
    requires forall i :: 0 <= i < |s| ==> s[i] as int <= 0xFFFF
    ensures Utf16Length(s) == |s|
  {
    if s != [] {
      Utf16LengthOfBmp(s[1..]);
    }
  }
}
