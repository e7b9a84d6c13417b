/** Exact decimal arithmetic, as the sale recorder does it with Python's Decimal. */
module Decimals {

  /** The number coef × 10^(-scale): a Decimal's coefficient and (negated) exponent.
      Decimal("10.50") is Dec(1050, 2) and Decimal("7") is Dec(7, 0). */
  datatype Dec = Dec(coef: int, scale: nat)

  function Pow10(n: nat): (r: nat)
    ensures r >= 1
  {
    if n == 0 then 1 else 10 * Pow10(n - 1)
  }

  lemma {:induction false} Pow10Add(a: nat, b: nat)
    ensures Pow10(a + b) == Pow10(a) * Pow10(b)
  {
    if a > 0 {
      Pow10Add(a - 1, b);
      assert Pow10(a + b) == 10 * Pow10(a - 1 + b);
    }
  }

  /** The rational number a decimal denotes. */
  function Value(d: Dec): real {
    d.coef as real / Pow10(d.scale) as real
  }

  /** Decimal("0"), the commission used when the field is blank. */
  const Zero: Dec := Dec(0, 0)

  function Max(a: nat, b: nat): nat {
    if a < b then b else a
  }

  /** The same number written with `s` fractional digits. */
  function Rescale(d: Dec, s: nat): (r: Dec)
    requires d.scale <= s
    ensures r.scale == s
    ensures Value(r) == Value(d)
  {
    var k := Pow10(s - d.scale);
    Pow10Add(s - d.scale, d.scale);
    CancelFactor(d.coef as real, k as real, Pow10(d.scale) as real);
    Dec(d.coef * k, s)
  }

  lemma CancelFactor(c: real, k: real, m: real)
    requires k > 0.0 && m > 0.0
    ensures (c * k) / (k * m) == c / m
  {
    calc {
      (c * k) / (k * m);
      ((c / m) * (k * m)) / (k * m);
      c / m;
    }
  }

  /** Decimal times int: the int becomes a Decimal with exponent 0, so the
      product keeps the decimal's exponent. */
  function Mul(d: Dec, n: int): (r: Dec)
    ensures r.scale == d.scale
    ensures Value(r) == Value(d) * n as real
  {
    var r := Dec(d.coef * n, d.scale);
    assert (d.coef * n) as real == d.coef as real * n as real;
    r
  }

  /** Decimal minus Decimal: the result takes the smaller exponent, that is
      the larger number of fractional digits. */
  function Sub(a: Dec, b: Dec): (r: Dec)
    ensures r.scale == Max(a.scale, b.scale)
    ensures Value(r) == Value(a) - Value(b)
  {
    var s := Max(a.scale, b.scale);
    var a' := Rescale(a, s);
    var b' := Rescale(b, s);
    SubAligned(a', b');
    Dec(a'.coef - b'.coef, s)
  }

  lemma SubAligned(x: Dec, y: Dec)
    requires x.scale == y.scale
    ensures Value(Dec(x.coef - y.coef, x.scale)) == Value(x) - Value(y)
  {
    var p := Pow10(x.scale) as real;
    assert (x.coef - y.coef) as real == x.coef as real - y.coef as real;
    assert (x.coef as real - y.coef as real) / p == x.coef as real / p - y.coef as real / p;
  }
}
