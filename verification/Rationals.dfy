/** Exact rationals, as the program uses them through `math/big`: a numerator over a positive denominator.
    Every operation modelled depends on the value only, so fractions need not be reduced. */
module Rationals {

  type pos = x: int | 0 < x witness 1

  datatype Rat = Rat(num: int, den: pos)

  /** The two fractions are the same number. */
  predicate SameValue(a: Rat, b: Rat) {
    a.num * b.den == b.num * a.den
  }

  function Abs(x: int): nat {
    if x < 0 then -x else x
  }

  /** 10 to the power n. */
  function Pow10(n: nat): pos {
    if n == 0 then 1 else
    var r: pos := Pow10(n - 1);
    10 * r
  }

  ghost predicate CommonDivisor(d: int, a: int, b: int) {
    d > 0 && a % d == 0 && b % d == 0
  }

  ghost predicate Coprime(a: int, b: int) {
    forall d :: CommonDivisor(d, a, b) ==> d == 1
  }

  lemma DivMod(p: int, q: int)
    requires q > 0
    ensures p == (p / q) * q + p % q && 0 <= p % q < q
  {
  }

  /** Quotient and remainder are unique. */
  lemma DivModUnique(p: int, q: int, a: int, r: int)
    requires q > 0 && p == a * q + r && 0 <= r < q
    ensures p / q == a && p % q == r
  {
    DivMod(p, q);
    var d := p / q - a;
    assert d * q == r - p % q;
  }

  lemma MulMod(a: int, q: int)
    requires q > 0
    ensures (a * q) / q == a && (a * q) % q == 0
  {
    DivModUnique(a * q, q, a, 0);
  }

  lemma MulAtLeast(a: int, b: int)
    requires 1 <= a && 0 <= b
    ensures a * b >= b
  {
  }

  lemma MulMono(a: int, b: int, c: int)
    requires a <= b && 0 <= c
    ensures a * c <= b * c
  {
  }

  lemma MulStrict(a: int, b: int, c: int)
    requires a < b && 0 < c
    ensures a * c < b * c
  {
  }

  lemma AbsMul(a: int, b: int)
    ensures Abs(a * b) == Abs(a) * Abs(b)
  {
  }
}
