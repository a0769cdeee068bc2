/** Non-linear integer facts used by the index arithmetic of the other modules. */
module Arith {

  lemma MulMono(d: nat, a: int, b: int)
    requires a <= b
    ensures d * a <= d * b
  {
    assert d * (b - a) >= 0;
    assert d * (b - a) == d * b - d * a;
  }

  /** Division with remainder is unique. */
  lemma DivMod(d: nat, q: int, r: int)
    requires 0 <= r < d
    ensures (d * q + r) / d == q && (d * q + r) % d == r
  {
    var a := d * q + r;
    var q', r' := a / d, a % d;
    assert a == d * q' + r' && 0 <= r' < d;
    assert d * (q - q') == d * q - d * q' == r' - r;
    if q - q' >= 1 {
      MulMono(d, 1, q - q');
    } else if q - q' <= -1 {
      MulMono(d, q - q', -1);
    }
  }

  lemma DivModBack(a: int, d: nat)
    requires d >= 1
    ensures a == d * (a / d) + a % d && 0 <= a % d < d
  {
  }

  /** A multiple of `d` divides exactly. */
  lemma DivExact(d: nat, q: int)
    requires d >= 1
    ensures (d * q) / d == q && (d * q) % d == 0
    ensures (q * d) / d == q && (q * d) % d == 0
  {
    DivMod(d, q, 0);
    assert q * d == d * q;
  }
}
