/** The two number parsers the form handler relies on: Python's int() on a
    string and Decimal() on a string, with their printing partners. */
module Numerals {
  import opened Wrappers
  import opened Text
  import opened Decimals

  /** A leading `+` or `-`, if any, and what follows it. */
  function SplitSign(t: string): (r: (bool, string))
    ensures r.1 == t || (|t| > 0 && r.1 == t[1..] && (t[0] == '-' || t[0] == '+'))
    ensures r.0 <==> |t| > 0 && t[0] == '-'
  {
    if |t| > 0 && (t[0] == '-' || t[0] == '+') then (t[0] == '-', t[1..]) else (false, t)
  }

  function Signed(negative: bool, n: nat): int {
    if negative then -(n as int) else n
  }

  function Abs(n: int): nat {
    if n < 0 then -n else n
  }

  /** The characters a printed number is made of. */
  predicate NumeralChars(r: string) {
    forall i :: 0 <= i < |r| ==> r[i] == '-' || r[i] == '.' || IsDigit(r[i])
  }

  lemma NumeralTrimmed(r: string)
    requires NumeralChars(r)
    ensures Trimmed(r) && ',' !in r
  {
    if r != [] {
      assert !IsSpace(r[0]) && !IsSpace(r[|r| - 1]);
    }
  }

  /** An optional sign in front of a body that does not itself start with one. */
  predicate IsSign(sign: string) {
    sign == "" || sign == "+" || sign == "-"
  }

  lemma SplitSignOf(sign: string, body: string)
    requires IsSign(sign)
    requires |body| > 0 && body[0] != '-' && body[0] != '+'
    ensures SplitSign(sign + body) == (sign == "-", body)
  {
    if sign == "" {
      assert sign + body == body;
    } else {
      assert (sign + body)[1..] == body;
    }
  }

  /** The most digits int() reads from, and str() writes for, a decimal
      integer: sys.int_info.default_max_str_digits. Leading zeros count. */
  const MaxStrDigits: nat := 4300

  /** str(n) does not raise: n has at most MaxStrDigits decimal digits. */
  predicate FitsStrDigits(n: int) {
    |NatDigits(Abs(n))| <= MaxStrDigits
  }

  /** Python's int(s) for a str: the whitespace int() skips around an
      optional sign and one to MaxStrDigits ASCII digits. Anything else is a
      ValueError (None). */
  function ParseInt(s: string): (r: Option<int>)
    ensures AllBlank(IntBlanks, s) ==> r.None?
    ensures r.Some? ==> |s| > 0
  {
    var (negative, body) := SplitSign(StripBy(IntBlanks, s));
    if 0 < |body| <= MaxStrDigits && AllDigits(body) then Some(Signed(negative, DigitsValue(body))) else None
  }

  /** Python's str(n) for an n that FitsStrDigits; for a longer n, str()
      raises ValueError, and the lemmas about this printer exclude it. */
  function RenderInt(n: int): (r: string)
    ensures |r| > 0 && Trimmed(r)
  {
    var digits := NatDigits(Abs(n));
    var r := (if n < 0 then "-" else "") + digits;
    assert r[|r| - 1] == digits[|digits| - 1];
    NumeralTrimmed(r);
    r
  }

  /** int() accepts every text made of skipped whitespace, an optional sign,
      ASCII digits and skipped whitespace, and reads the number the digits
      denote. */
  lemma ReadsIntShape(lead: string, sign: string, digits: string, trail: string)
    requires AllBlank(IntBlanks, lead) && AllBlank(IntBlanks, trail)
    requires IsSign(sign) && 0 < |digits| <= MaxStrDigits && AllDigits(digits)
    ensures ParseInt(lead + sign + digits + trail) == Some(Signed(sign == "-", DigitsValue(digits)))
  {
    var t := sign + digits;
    SignedDigitsTrimmed(sign, digits);
    Regroup(lead, sign, digits, trail);
    StripSurrounded(IntBlanks, lead, t, trail);
    SplitSignOf(sign, digits);
  }

  /** More than MaxStrDigits digits, leading zeros included, are refused
      whatever surrounds them. */
  lemma TooManyDigits(lead: string, sign: string, digits: string, trail: string)
    requires AllBlank(IntBlanks, lead) && AllBlank(IntBlanks, trail)
    requires IsSign(sign) && |digits| > MaxStrDigits && AllDigits(digits)
    ensures ParseInt(lead + sign + digits + trail) == None
  {
    SignedDigitsTrimmed(sign, digits);
    Regroup(lead, sign, digits, trail);
    StripSurrounded(IntBlanks, lead, sign + digits, trail);
    SplitSignOf(sign, digits);
  }

  lemma SignedDigitsTrimmed(sign: string, digits: string)
    requires IsSign(sign) && |digits| > 0 && AllDigits(digits)
    ensures TrimmedBy(IntBlanks, sign + digits)
  {
    var t := sign + digits;
    assert IsDigit(digits[0]) && IsDigit(digits[|digits| - 1]);
    assert t[|t| - 1] == digits[|digits| - 1];
    assert t[0] == if sign == "" then digits[0] else sign[0];
  }

  lemma Regroup(a: string, b: string, c: string, d: string)
    ensures a + b + c + d == a + (b + c) + d
  {
  }

  /** Conversely, every text int() accepts has that shape, and the number
      read is the one its digits denote. */
  lemma ParsedIntShape(s: string, n: int) returns (lead: string, sign: string, digits: string, trail: string)
    requires ParseInt(s) == Some(n)
    ensures AllBlank(IntBlanks, lead) && AllBlank(IntBlanks, trail)
    ensures IsSign(sign) && 0 < |digits| <= MaxStrDigits && AllDigits(digits)
    ensures s == lead + sign + digits + trail
    ensures n == Signed(sign == "-", DigitsValue(digits))
  {
    var t := StripBy(IntBlanks, s);
    lead, trail := StripSplit(IntBlanks, s);
    sign := SignOf(t);
    digits := SplitSign(t).1;
    Regroup(lead, sign, digits, trail);
  }

  /** The sign SplitSign reads off the front of `t`, as text. */
  function SignOf(t: string): (sign: string)
    ensures IsSign(sign)
    ensures t == sign + SplitSign(t).1
    ensures SplitSign(t).0 <==> sign == "-"
  {
    if |t| > 0 && (t[0] == '-' || t[0] == '+') then
      assert t == [t[0]] + t[1..];
      [t[0]]
    else
      assert t == "" + t;
      ""
  }

  /** int() reads back whatever str() writes without raising, with any
      whitespace int() skips around it. */
  lemma ParseRenderInt(n: int, lead: string, trail: string)
    requires FitsStrDigits(n)
    requires AllBlank(IntBlanks, lead) && AllBlank(IntBlanks, trail)
    ensures ParseInt(lead + RenderInt(n) + trail) == Some(n)
  {
    var digits := NatDigits(Abs(n));
    var sign := if n < 0 then "-" else "";
    assert RenderInt(n) == sign + digits;
    Regroup(lead, sign, digits, trail);
    ReadsIntShape(lead, sign, digits, trail);
  }

  lemma ReadsRenderedInt(n: int)
    requires FitsStrDigits(n)
    ensures ParseInt(RenderInt(n)) == Some(n)
  {
    ParseRenderInt(n, "", "");
    assert "" + RenderInt(n) + "" == RenderInt(n);
  }

  /** The position of the first `c` in `s`. */
  function IndexOf(s: string, c: char): (k: nat)
    requires c in s
    ensures k < |s| && s[k] == c && c !in s[..k]
  {
    if s[0] == c then 0 else
      var k := IndexOf(s[1..], c);
      assert s[1..][..k] == s[1..k + 1];
      k + 1
  }

  /** Python's Decimal(t) for a sign, digits and at most one `.`, with at
      least one digit: "12", "12.", ".5", "-0.50". The result keeps every
      written fractional digit, as Decimal does. Other strings are an
      InvalidOperation (None). */
  function ParseDecimal(t: string): (r: Option<Dec>)
    ensures r.Some? ==> r.value.scale < |t|
    ensures r.Some? && '.' !in t ==> r.value.scale == 0
  {
    var (negative, body) := SplitSign(t);
    assert '.' in body ==> '.' in t;
    ParseBody(negative, body)
  }

  /** The numerals ParseDecimal accepts: an optional sign, the whole digits,
      an optional point and the fraction digits, with at least one digit. */
  predicate DecimalShape(sign: string, whole: string, dot: string, fraction: string) {
    && IsSign(sign) && AllDigits(whole) && AllDigits(fraction)
    && (dot == "" || dot == ".") && (dot == "" ==> fraction == "")
    && |whole| + |fraction| > 0
  }

  /** Every numeral of that shape is read as its digits, with as many
      fractional digits as were written after the point. */
  lemma ReadsDecimalShape(sign: string, whole: string, dot: string, fraction: string)
    requires DecimalShape(sign, whole, dot, fraction)
    ensures ParseDecimal(sign + whole + dot + fraction)
      == Some(Dec(Signed(sign == "-", DigitsValue(whole + fraction)), |fraction|))
  {
    var body := whole + dot + fraction;
    var negative := sign == "-";
    Regroup3(sign, whole, dot, fraction);
    UnsignedBody(whole, dot, fraction);
    SplitSignOf(sign, body);
    if dot == "." {
      ReadSplit(negative, whole, fraction);
    } else {
      NoFraction(whole, fraction);
      ReadWhole(negative, whole);
    }
  }

  lemma Regroup3(a: string, b: string, c: string, d: string)
    ensures a + b + c + d == a + (b + c + d)
  {
  }

  lemma NoFraction(whole: string, fraction: string)
    requires fraction == ""
    ensures whole + "" + fraction == whole && whole + fraction == whole
  {
  }

  /** The part after the sign starts with a digit or the point. */
  lemma UnsignedBody(whole: string, dot: string, fraction: string)
    requires AllDigits(whole) && (dot == "" || dot == ".") && (dot == "" ==> fraction == "")
    requires |whole| + |fraction| > 0
    ensures |whole + dot + fraction| > 0
    ensures (whole + dot + fraction)[0] != '-' && (whole + dot + fraction)[0] != '+'
  {
    var body := whole + dot + fraction;
    if whole != [] {
      assert body[0] == whole[0] && IsDigit(whole[0]);
    } else {
      assert body[0] == '.';
    }
  }

  /** Conversely, every text ParseDecimal accepts has that shape and is read
      that way. */
  lemma ParsedDecimalShape(t: string, d: Dec) returns (sign: string, whole: string, dot: string, fraction: string)
    requires ParseDecimal(t) == Some(d)
    ensures DecimalShape(sign, whole, dot, fraction)
    ensures t == sign + whole + dot + fraction
    ensures d == Dec(Signed(sign == "-", DigitsValue(whole + fraction)), |fraction|)
  {
    sign := SignOf(t);
    var body := SplitSign(t).1;
    if '.' in body {
      var k := IndexOf(body, '.');
      whole, dot, fraction := body[..k], ".", body[k + 1..];
      PointSplit(body, k);
    } else {
      whole, dot, fraction := body, "", "";
      NoFraction(body, "");
    }
    Regroup3(sign, whole, dot, fraction);
  }

  lemma PointSplit(body: string, k: nat)
    requires k < |body| && body[k] == '.'
    ensures body == body[..k] + "." + body[k + 1..]
  {
  }

  /** A decimal in plain notation: a sign when negative, the integer digits,
      and `scale` fractional digits. This is Python's str(d) whenever d's
      adjusted exponent is at least -6; below that str(d) switches to
      exponent notation ("1E-7" for Dec(1, 7)). */
  function RenderDecimal(d: Dec): (r: string)
    ensures |r| > 0 && Trimmed(r) && ',' !in r
  {
    var digits := PadZeros(NatDigits(Abs(d.coef)), d.scale + 1);
    var r := (if d.coef < 0 then "-" else "") + PointAt(digits, d.scale);
    assert r[|r| - 1] == digits[|digits| - 1];
    NumeralTrimmed(r);
    r
  }

  /** `digits` with a `.` before its last `scale` digits (none when `scale` is 0). */
  function PointAt(digits: string, scale: nat): (r: string)
    requires AllDigits(digits) && |digits| > scale
    ensures NumeralChars(r) && |r| > 0 && IsDigit(r[0]) && r[|r| - 1] == digits[|digits| - 1]
  {
    var k := |digits| - scale;
    if scale == 0 then digits else digits[..k] + "." + digits[k..]
  }

  /** Decimal() reads back exactly the decimal the plain-notation printer
      wrote, coefficient and exponent included. */
  lemma ParseRenderDecimal(d: Dec)
    ensures ParseDecimal(RenderDecimal(d)) == Some(d)
  {
    var digits := PadZeros(NatDigits(Abs(d.coef)), d.scale + 1);
    var body := PointAt(digits, d.scale);
    var negative := d.coef < 0;
    ReadSign(negative, body);
    assert RenderDecimal(d) == (if negative then "-" else "") + body;
    ReadPointAt(negative, digits, d.scale);
    assert Signed(negative, DigitsValue(digits)) == d.coef;
  }

  lemma ReadSign(negative: bool, body: string)
    requires |body| > 0 && IsDigit(body[0])
    ensures SplitSign((if negative then "-" else "") + body) == (negative, body)
  {
    SplitSignOf(if negative then "-" else "", body);
  }

  /** ParseDecimal once the sign has been read. */
  function ParseBody(negative: bool, body: string): Option<Dec> {
    if '.' in body then
      var k := IndexOf(body, '.');
      ParseParts(negative, body[..k], body[k + 1..])
    else ParseParts(negative, body, "")
  }

  /** The digits before and after the point, at least one of them. */
  function ParseParts(negative: bool, whole: string, fraction: string): Option<Dec> {
    if AllDigits(whole) && AllDigits(fraction) && |whole| + |fraction| > 0 then
      Some(Dec(Signed(negative, DigitsValue(whole + fraction)), |fraction|))
    else None
  }

  /** Reading a point-split digit string gives back the digits and the scale. */
  lemma ReadPointAt(negative: bool, digits: string, scale: nat)
    requires AllDigits(digits) && |digits| > scale
    ensures ParseBody(negative, PointAt(digits, scale))
      == Some(Dec(Signed(negative, DigitsValue(digits)), scale))
  {
    if scale > 0 {
      ReadFraction(negative, digits, scale);
    } else {
      ReadWhole(negative, digits);
    }
  }

  lemma ReadFraction(negative: bool, digits: string, scale: nat)
    requires AllDigits(digits) && |digits| > scale > 0
    ensures ParseBody(negative, PointAt(digits, scale))
      == Some(Dec(Signed(negative, DigitsValue(digits)), scale))
  {
    var k := |digits| - scale;
    DigitSlices(digits, k);
    ReadSplit(negative, digits[..k], digits[k..]);
    JoinSlices(digits, k);
  }

  lemma JoinSlices(s: string, k: nat)
    requires k <= |s|
    ensures s[..k] + s[k..] == s
  {
  }

  lemma ReadWhole(negative: bool, digits: string)
    requires AllDigits(digits) && |digits| > 0
    ensures ParseBody(negative, digits) == Some(Dec(Signed(negative, DigitsValue(digits)), 0))
  {
    assert '.' !in digits by {
      assert AllDigits(digits);
    }
    assert digits + "" == digits;
  }

  lemma DigitSlices(digits: string, k: nat)
    requires AllDigits(digits) && k <= |digits|
    ensures AllDigits(digits[..k]) && AllDigits(digits[k..])
  {
    assert forall i :: 0 <= i < k ==> digits[..k][i] == digits[i];
    assert forall i :: 0 <= i < |digits| - k ==> digits[k..][i] == digits[k + i];
  }

  /** Reading digits with a point between `whole` and `fraction`. */
  lemma ReadSplit(negative: bool, whole: string, fraction: string)
    requires AllDigits(whole) && AllDigits(fraction) && |whole| + |fraction| > 0
    ensures ParseBody(negative, whole + "." + fraction) == ParseParts(negative, whole, fraction)
    ensures ParseParts(negative, whole, fraction)
      == Some(Dec(Signed(negative, DigitsValue(whole + fraction)), |fraction|))
  {
    var body := whole + "." + fraction;
    assert '.' !in whole by {
      assert AllDigits(whole);
    }
    FirstPoint(whole, fraction);
    var k := |whole|;
    assert body[..k] == whole;
    assert body[k + 1..] == fraction;
  }

  lemma FirstPoint(whole: string, fraction: string)
    requires '.' !in whole
    ensures '.' in whole + "." + fraction
    ensures IndexOf(whole + "." + fraction, '.') == |whole|
  {
    var body := whole + "." + fraction;
    assert body[|whole|] == '.';
  }
}
