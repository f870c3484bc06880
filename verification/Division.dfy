/**
 Facts about division with remainder that the verifier does not find on its own.
 */
module Division {
  lemma Quotient(v: int, p: int, q: int, r: int)
    requires 0 < p && v == p * q + r && 0 <= r < p
    ensures v / p == q && v % p == r
  {
    var d := v / p - q;
    assert v == p * (v / p) + v % p;
    assert p * d == r - v % p;
    Multiples(p, d);
  }

  lemma Multiples(p: int, d: int)
    requires p > 0
    ensures d > 0 ==> p * d >= p
    ensures d < 0 ==> p * d <= -p
  {
  }

  lemma ProductGrows(p: nat, a: nat, b: nat)
    requires a <= b
    ensures p * a <= p * b
  {
  }

  lemma DivLess(v: nat, p: nat, q: nat)
    requires p > 0 && v < p * q
    ensures v / p < q
  {
    var d := v / p;
    assert v == p * d + v % p;
    if d >= q {
      ProductGrows(p, q, d);
    }
  }

  lemma QuotientSmaller(v: nat, p: nat)
    requires p > 0
    ensures v / p <= v
  {
    if v / p > v {
      ProductGrows(v / p, 1, p);
    }
    assert v == p * (v / p) + v % p;
  }

  lemma QuotientLess(v: int, p: int, q: int)
    requires p > 0
    ensures (v - p * q) / p == v / p - q
  {
    assert v == p * (v / p) + v % p;
    assert v - p * q == p * (v / p - q) + v % p;
    Quotient(v - p * q, p, v / p - q, v % p);
  }

  lemma HalfMod(v: nat, p: nat)
    requires p > 0
    ensures v % (2 * p) == 2 * (v / 2 % p) + v % 2
    ensures v / (2 * p) == v / 2 / p
  {
    var h := v / 2;
    assert h == p * (h / p) + h % p;
    assert v == 2 * p * (h / p) + (2 * (h % p) + v % 2);
    Quotient(v, 2 * p, h / p, 2 * (h % p) + v % 2);
  }

  lemma LowSmaller(v: nat, p: nat)
    requires p > 0
    ensures v % p <= v
  {
    if v < p {
      Quotient(v, p, 0, v);
    }
  }

  lemma DivTwice(v: nat, p: nat)
    requires p > 0
    ensures v / (256 * p) == v / 256 / p
  {
    var q, r := v / (256 * p), v % (256 * p);
    assert v == 256 * (p * q) + r;
    assert v / 256 == p * q + r / 256 && r / 256 < p;
    Quotient(v / 256, p, q, r / 256);
  }
}
