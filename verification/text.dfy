/** The string handling the form fields go through: Python's str.strip(),
    the `,` to `.` replacement, and ASCII digit strings. */
module Text {

  /** Python's str.isspace(): the characters str.strip() removes. */
  predicate IsSpace(c: char) {
    var n := c as int;
    || (9 <= n <= 13) || (28 <= n <= 32) || n == 0x85 || n == 0xA0 || n == 0x1680
    || (0x2000 <= n <= 0x200A) || n == 0x2028 || n == 0x2029 || n == 0x202F
    || n == 0x205F || n == 0x3000
  }

  /** The whitespace int() skips around its digits. int() first turns each
      non-ASCII whitespace character into a space but keeps every character
      below 127 as it is, then skips only space, tab, newline, vertical tab,
      form feed and carriage return; so U+001C to U+001F, which str.strip()
      removes, are not skipped. */
  predicate IsIntSpace(c: char) {
    var n := c as int;
    if n < 127 then (9 <= n <= 13) || n == 32 else IsSpace(c)
  }

  /** Which characters count as surrounding whitespace: those str.strip()
      removes, or those int() skips. */
  datatype Blanks = StripBlanks | IntBlanks

  predicate IsBlank(w: Blanks, c: char) {
    match w
    case StripBlanks => IsSpace(c)
    case IntBlanks => IsIntSpace(c)
  }

  predicate AllBlank(w: Blanks, s: string) {
    forall i :: 0 <= i < |s| ==> IsBlank(w, s[i])
  }

  /** Neither end of `t` is a blank of `w`. */
  predicate TrimmedBy(w: Blanks, t: string) {
    t == [] || (!IsBlank(w, t[0]) && !IsBlank(w, t[|t| - 1]))
  }

  predicate AllSpace(s: string) {
    AllBlank(StripBlanks, s)
  }

  /** Neither end of `t` is whitespace: what str.strip() leaves. */
  predicate Trimmed(t: string) {
    TrimmedBy(StripBlanks, t)
  }

  /** The first position at or after `i` that is not a blank, or |s| when
      there is none. */
  function SkipBlanks(w: Blanks, s: string, i: nat): (k: nat)
    requires i <= |s|
    ensures i <= k <= |s|
    ensures forall m :: i <= m < k ==> IsBlank(w, s[m])
    ensures k < |s| ==> !IsBlank(w, s[k])
    decreases |s| - i
  {
    if i < |s| && IsBlank(w, s[i]) then SkipBlanks(w, s, i + 1) else i
  }

  /** The start of the run of blanks that ends at position `j`. */
  function BackBlanks(w: Blanks, s: string, j: nat): (k: nat)
    requires j <= |s|
    ensures k <= j
    ensures forall m :: k <= m < j ==> IsBlank(w, s[m])
    ensures k > 0 ==> !IsBlank(w, s[k - 1])
  {
    if j > 0 && IsBlank(w, s[j - 1]) then BackBlanks(w, s, j - 1) else j
  }

  /** `s` without its leading and trailing blanks: the slice between them. */
  function StripBy(w: Blanks, s: string): (r: string)
    ensures TrimmedBy(w, r)
    ensures |r| <= |s|
    ensures r == [] <==> AllBlank(w, s)
  {
    var i := SkipBlanks(w, s, 0);
    var j := BackBlanks(w, s, |s|);
    if i < j then
      assert s[i..j][0] == s[i] && s[i..j][j - i - 1] == s[j - 1];
      s[i..j]
    else
      []
  }

  /** Python's str.strip() with no argument. */
  function Strip(s: string): (r: string)
    ensures Trimmed(r)
    ensures r == [] <==> AllSpace(s)
  {
    StripBy(StripBlanks, s)
  }

  /** The only position in `s[i..]` that SkipBlanks can stop at. */
  lemma SkipBlanksAt(w: Blanks, s: string, i: nat, k: nat)
    requires i <= k <= |s|
    requires forall m :: i <= m < k ==> IsBlank(w, s[m])
    requires k < |s| ==> !IsBlank(w, s[k])
    ensures SkipBlanks(w, s, i) == k
  {
  }

  /** The only position in `s[..j]` that BackBlanks can stop at. */
  lemma BackBlanksAt(w: Blanks, s: string, j: nat, k: nat)
    requires k <= j <= |s|
    requires forall m :: k <= m < j ==> IsBlank(w, s[m])
    requires k > 0 ==> !IsBlank(w, s[k - 1])
    ensures BackBlanks(w, s, j) == k
  {
  }

  /** Stripping removes exactly the surrounding blanks and nothing else. */
  lemma StripSurrounded(w: Blanks, a: string, t: string, b: string)
    requires AllBlank(w, a) && AllBlank(w, b) && TrimmedBy(w, t)
    ensures StripBy(w, a + t + b) == t
  {
    var x := a + t + b;
    assert forall m :: 0 <= m < |a| ==> x[m] == a[m];
    assert forall m :: |a| + |t| <= m < |x| ==> x[m] == b[m - |a| - |t|];
    if t == [] {
      assert AllBlank(w, x);
    } else {
      assert x[|a|] == t[0] && x[|a| + |t| - 1] == t[|t| - 1];
      SkipBlanksAt(w, x, 0, |a|);
      BackBlanksAt(w, x, |x|, |a| + |t|);
      assert x[|a|..|a| + |t|] == t;
    }
  }

  /** Every string is its stripped form between two runs of blanks. */
  lemma StripSplit(w: Blanks, s: string) returns (a: string, b: string)
    ensures AllBlank(w, a) && AllBlank(w, b)
    ensures s == a + StripBy(w, s) + b
  {
    var i := SkipBlanks(w, s, 0);
    var j := BackBlanks(w, s, |s|);
    if i < j {
      a, b := s[..i], s[j..];
      BlankSlices(w, s, i, j);
      JoinThree(s, i, j);
    } else {
      a, b := s, [];
      assert s + [] + [] == s;
    }
  }

  lemma BlankSlices(w: Blanks, s: string, i: nat, j: nat)
    requires i <= j <= |s|
    requires forall m :: 0 <= m < i ==> IsBlank(w, s[m])
    requires forall m :: j <= m < |s| ==> IsBlank(w, s[m])
    ensures AllBlank(w, s[..i]) && AllBlank(w, s[j..])
  {
    assert forall m :: 0 <= m < |s| - j ==> s[j..][m] == s[j + m];
  }

  lemma JoinThree(s: string, i: nat, j: nat)
    requires i <= j <= |s|
    ensures s == s[..i] + s[i..j] + s[j..]
  {
  }

  /** `s` and `t` have blanks at the same positions. */
  predicate SameSpacing(w: Blanks, s: string, t: string) {
    |s| == |t| && forall m :: 0 <= m < |s| ==> IsBlank(w, s[m]) == IsBlank(w, t[m])
  }

  /** Strings with the same spacing are stripped at the same positions. */
  lemma SameSpacingStrip(w: Blanks, s: string, t: string)
    requires SameSpacing(w, s, t)
    ensures SkipBlanks(w, s, 0) == SkipBlanks(w, t, 0)
    ensures BackBlanks(w, s, |s|) == BackBlanks(w, t, |t|)
  {
    var i := SkipBlanks(w, s, 0);
    SkipBlanksAt(w, t, 0, i);
    var j := BackBlanks(w, s, |s|);
    BackBlanksAt(w, t, |t|, j);
  }

  function SwapComma(c: char): char {
    if c == ',' then '.' else c
  }

  /** Python's s.replace(",", "."). */
  function ReplaceComma(s: string): (r: string)
    ensures |r| == |s|
    ensures ',' !in r
    ensures forall i :: 0 <= i < |s| ==> r[i] == SwapComma(s[i])
  {
    seq(|s|, i requires 0 <= i < |s| => SwapComma(s[i]))
  }

  /** Whitespace is not a separator, so replacing separators and stripping
      commute: replacing after the strip (as the form handler does) is the
      same as replacing in the raw field. */
  lemma StripReplaceCommute(s: string)
    ensures ReplaceComma(Strip(s)) == Strip(ReplaceComma(s))
  {
    var t := ReplaceComma(s);
    ReplaceKeepsSpacing(s);
    SameSpacingStrip(StripBlanks, s, t);
    var i := SkipBlanks(StripBlanks, s, 0);
    var j := BackBlanks(StripBlanks, s, |s|);
    if i < j {
      ReplaceCommaSlice(s, i, j);
    }
  }

  lemma ReplaceKeepsSpacing(s: string)
    ensures SameSpacing(StripBlanks, s, ReplaceComma(s))
  {
    forall m | 0 <= m < |s|
      ensures IsSpace(s[m]) == IsSpace(ReplaceComma(s)[m])
    {
      SwapKeepsSpace(s[m]);
    }
  }

  lemma ReplaceCommaSlice(s: string, i: nat, j: nat)
    requires i <= j <= |s|
    ensures ReplaceComma(s[i..j]) == ReplaceComma(s)[i..j]
  {
    assert forall m :: 0 <= m < j - i ==> ReplaceComma(s[i..j])[m] == ReplaceComma(s)[i..j][m];
  }

  lemma SwapKeepsSpace(c: char)
    ensures IsSpace(SwapComma(c)) == IsSpace(c)
  {
  }

  lemma NoCommaUnchanged(s: string)
    requires ',' !in s
    ensures ReplaceComma(s) == s
  {
    assert forall i :: 0 <= i < |s| ==> s[i] != ',' && ReplaceComma(s)[i] == s[i];
  }

  lemma ReplaceCommaIdempotent(s: string)
    ensures ReplaceComma(ReplaceComma(s)) == ReplaceComma(s)
  {
  }

  predicate IsDigit(c: char) {
    '0' <= c <= '9'
  }

  predicate AllDigits(s: string) {
    forall i :: 0 <= i < |s| ==> IsDigit(s[i])
  }

  function DigitChar(n: nat): (c: char)
    requires n < 10
    ensures IsDigit(c)
  {
    ['0', '1', '2', '3', '4', '5', '6', '7', '8', '9'][n]
  }

  function DigitValue(c: char): (n: nat)
    requires IsDigit(c)
    ensures n < 10 && DigitChar(n) == c
  {
    (c as int) - ('0' as int)
  }

  /** The number an ASCII digit string denotes in base 10. */
  function DigitsValue(s: string): nat
    requires AllDigits(s)
  {
    if s == [] then 0 else 10 * DigitsValue(s[..|s| - 1]) + DigitValue(s[|s| - 1])
  }

  /** The shortest base-10 spelling of `n`, as Python's str(n). */
  function NatDigits(n: nat): (r: string)
    ensures AllDigits(r) && |r| > 0
    ensures DigitsValue(r) == n
    ensures r[0] == '0' ==> n == 0
  {
    if n < 10 then [DigitChar(n)]
    else
      var r := NatDigits(n / 10) + [DigitChar(n % 10)];
      assert r[..|r| - 1] == NatDigits(n / 10);
      r
  }

  function Zeros(k: nat): (r: string)
    ensures |r| == k && AllDigits(r)
    ensures DigitsValue(r) == 0
  {
    if k == 0 then [] else
      var r := Zeros(k - 1) + ['0'];
      assert r[..|r| - 1] == Zeros(k - 1);
      r
  }

  lemma {:induction false} LeadingZeros(k: nat, s: string)
    requires AllDigits(s)
    ensures AllDigits(Zeros(k) + s)
    ensures DigitsValue(Zeros(k) + s) == DigitsValue(s)
    decreases |s|
  {
    if s == [] {
      assert Zeros(k) + s == Zeros(k);
    } else {
      var z := Zeros(k) + s;
      assert z[..|z| - 1] == Zeros(k) + s[..|s| - 1];
      LeadingZeros(k, s[..|s| - 1]);
    }
  }

  /** `s` widened with leading zeros to at least `width` digits. */
  function PadZeros(s: string, width: nat): (r: string)
    requires AllDigits(s)
    ensures AllDigits(r) && |r| >= width && |r| >= |s|
    ensures DigitsValue(r) == DigitsValue(s)
  {
    if |s| >= width then s
    else
      LeadingZeros(width - |s|, s);
      Zeros(width - |s|) + s
  }
}
