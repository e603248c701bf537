/** What the convergents are worth: best approximations (Lagrange), lowest terms, an error bound, exact recovery,
    and exactly when a price is found. */
module Approximation {
  import opened Rationals
  import opened Convergents

  /** How far h / k is from x, scaled by x.den * k. */
  function Residual(x: Rat, h: int, k: int): int {
    x.den * h - x.num * k
  }

  /** p / q is no closer to x than h / k. */
  predicate NoCloser(x: Rat, p: int, q: int, h: int, k: int) {
    Abs(Residual(x, h, k)) * q <= Abs(Residual(x, p, q)) * k
  }

  lemma ResidualOfConvergent(x: Rat, s: State)
    requires Recovers(x, s)
    ensures Residual(x, s.h, s.k) == s.q * Det(s)
  {
    calc {
      x.den * s.h - x.num * s.k;
      (s.p * s.k + s.q * s.k0) * s.h - (s.p * s.h + s.q * s.h0) * s.k;
      s.q * (s.h * s.k0 - s.h0 * s.k);
    }
  }

  /** Two convergents with determinant d = 1 or -1 are a basis: every fraction is an integer combination. */
  lemma Coordinates(h1: int, k1: int, h2: int, k2: int, p: int, q: int) returns (u: int, v: int)
    requires h1 * k2 - h2 * k1 == 1 || h1 * k2 - h2 * k1 == -1
    ensures p == u * h1 + v * h2 && q == u * k1 + v * k2
  {
    var d := h1 * k2 - h2 * k1;
    u, v := d * (p * k2 - h2 * q), d * (h1 * q - p * k1);
    calc {
      u * h1 + v * h2;
      d * (p * (h1 * k2 - h2 * k1));
      d * d * p;
      p;
    }
    calc {
      u * k1 + v * k2;
      d * (q * (h1 * k2 - h2 * k1));
      d * d * q;
      q;
    }
  }

  lemma ResidualLinear(x: Rat, h1: int, k1: int, h2: int, k2: int, u: int, v: int)
    ensures Residual(x, u * h1 + v * h2, u * k1 + v * k2) == u * Residual(x, h1, k1) + v * Residual(x, h2, k2)
  {
  }

  /** Opposite signs cannot cancel. */
  lemma NoCancellation(u: int, v: int, r: int, q: int, k2: int, k: int)
    requires 0 <= r < q && 1 <= k && 1 <= k2
    requires 1 <= u * k2 + v * k < k2
    ensures Abs(u * r - v * q) >= q
  {
    if v == 0 {
      if u >= 1 { MulAtLeast(u, k2); }
      assert u * k2 + v * k == u * k2;
      if u <= 0 { MulMono(u, 0, k2); }
    } else if v >= 1 {
      MulAtLeast(v, k);
      if u >= 1 { MulAtLeast(u, k2); }
      MulMono(u, 0, r);
      MulAtLeast(v, q);
    } else {
      MulMono(v, -1, k);
      if u <= 0 { MulMono(u, 0, k2); }
      MulMono(0, u, r);
      MulMono(v, -1, q);
    }
  }

  /** A fraction and its residual in terms of the last convergent and the next. */
  lemma InNextBasis(x: Rat, s: State, p: int, q: int) returns (u: int, v: int)
    requires Inv(x, s) && s.q > 0
    ensures var t := Advance(s);
      && p == u * t.h + v * s.h && q == u * t.k + v * s.k
      && 0 <= t.q < s.q && Abs(Residual(x, s.h, s.k)) == s.q && Abs(Residual(x, p, q)) == Abs(u * t.q - v * s.q)
  {
    var t := Advance(s);
    AdvanceRecovers(x, s);
    AdvanceFlipsDet(s);
    DivMod(s.p, s.q);
    u, v := Coordinates(t.h, t.k, s.h, s.k, p, q);
    ResidualLinear(x, t.h, t.k, s.h, s.k, u, v);
    ResidualOfConvergent(x, s);
    ResidualOfConvergent(x, t);
    assert Residual(x, p, q) == Det(t) * (u * t.q - v * s.q);
  }

  /** Lagrange: below the next denominator, no fraction has a smaller residual than the current convergent. */
  lemma SmallestResidual(x: Rat, s: State, p: int, q: int)
    requires Inv(x, s) && s.q > 0 && 1 <= q < Advance(s).k
    ensures Abs(Residual(x, p, q)) >= Abs(Residual(x, s.h, s.k))
  {
    var u, v := InNextBasis(x, s, p, q);
    NoCancellation(u, v, Advance(s).q, s.q, Advance(s).k, s.k);
  }

  /** The same below the next numerator. */
  lemma SmallestResidualByNumerator(x: Rat, s: State, p: int, q: int)
    requires Inv(x, s) && s.q > 0 && s.h >= 1 && 1 <= p < Advance(s).h
    ensures Abs(Residual(x, p, q)) >= Abs(Residual(x, s.h, s.k))
  {
    var u, v := InNextBasis(x, s, p, q);
    NoCancellation(u, v, Advance(s).q, s.q, Advance(s).h, s.h);
  }

  /** The denominator the loop refuses is strictly larger than the one it returns. */
  lemma RefusedDenominator(x: Rat, s: State)
    requires WithinLimit(x) && Inv(x, s) && Stops(s) && s.q > 0
    ensures Advance(s).k > s.k
  {
    AdvanceBounds(s);
    if s.k0 == 0 {
      var a := s.p / s.q;
      if a >= 2 {
        MulMono(2, a, s.k);
      }
    }
  }

  /** What is returned for x is a best approximation: no fraction with a denominator as small is closer. */
  lemma BestApproximation(x: Rat, p: int, q: int)
    requires WithinLimit(x) && 1 <= q <= Run(Start(x)).k
    ensures NoCloser(x, p, q, Run(Start(x)).h, Run(Start(x)).k)
  {
    var s := Run(Start(x));
    RunInv(x);
    ResidualOfConvergent(x, s);
    if s.q > 0 {
      RefusedDenominator(x, s);
      SmallestResidual(x, s, p, q);
      SmallerIsNoCloser(Abs(Residual(x, s.h, s.k)), Abs(Residual(x, p, q)), s.k, q);
    }
  }

  lemma SmallerIsNoCloser(a: nat, b: nat, k: nat, q: nat)
    requires a <= b && q <= k
    ensures a * q <= b * k
  {
    MulMono(q, k, a);
    MulMono(a, b, k);
  }

  // ---------- lowest terms, error, range ----------

  lemma DetOneIsCoprime(h: int, k: int, h0: int, k0: int)
    requires h * k0 - h0 * k == 1 || h * k0 - h0 * k == -1
    ensures Coprime(h, k)
  {
    forall d | CommonDivisor(d, h, k)
      ensures d == 1
    {
      var a, b := h / d, k / d;
      DivMod(h, d);
      DivMod(k, d);
      assert h == a * d && k == b * d;
      var m := a * k0 - h0 * b;
      assert h * k0 - h0 * k == m * d;
      if d >= 2 {
        if m >= 1 { MulAtLeast(m, d); } else if m <= -1 { MulAtLeast(-m, d); }
      }
    }
  }

  /** What is returned is in lowest terms, and when it is not exact it is within one over the square of its
      denominator of the input. */
  lemma LowestTermsAndError(x: Rat)
    requires WithinLimit(x)
    ensures var f := Run(Start(x));
      && Coprime(f.h, f.k) && 1 <= f.k <= MAX_INT32 && f.h <= MAX_INT32
      && (f.q == 0 <==> x.num * f.k == f.h * x.den)
      && (f.q != 0 ==> Abs(Residual(x, f.h, f.k)) * f.k < x.den)
  {
    RunInv(x);
    var f := Run(Start(x));
    DetOneIsCoprime(f.h, f.k, f.h0, f.k0);
    ResidualOfConvergent(x, f);
    AbsMul(f.q, Det(f));
    assert Abs(Residual(x, f.h, f.k)) == f.q;
    MulStrict(f.q, f.p, f.k);
    MulMono(0, f.q, f.k0);
  }

  // ---------- when parsing succeeds ----------

  /** Numerators do not shrink either, once the input is not negative. */
  lemma {:induction false} RunGrows(x: Rat, s: State)
    requires Inv(x, s) && 0 <= s.h && 0 <= s.h0
    ensures Run(s).h >= s.h && Run(s).h0 >= 0
    decreases s.q
  {
    if Stops(s) {
    } else {
      AdvanceKeepsInv(x, s);
      AdvanceBounds(s);
      MulAtLeast(s.p / s.q, s.h);
      RunGrows(x, Advance(s));
    }
  }

  predicate Found(s: State) {
    s.h != 0 && s.k != 0
  }

  lemma IntegerPart(p: int, q: int)
    requires 0 <= p && 0 < q
    ensures p / q >= 0 && (p / q == 0 <==> p < q) && (p < q ==> p % q == p)
  {
    if p < q {
      DivModUnique(p, q, 0, p);
    } else {
      DivMod(p, q);
      if p / q <= 0 { MulMono(p / q, 0, q); }
    }
  }

  /** For an input that is not negative, a price is found exactly from 1/(2^31-1) to 2^31-1. */
  lemma SucceedsExactlyInRange(x: Rat)
    requires 0 <= x.num
    ensures Found(Run(Start(x))) <==> x.den <= MAX_INT32 * x.num && WithinLimit(x)
    ensures Found(Run(Start(x))) ==> Run(Start(x)).h >= 1 && Run(Start(x)).h0 >= 0
  {
    if WithinLimit(x) {
      FirstTurn(x);
      IntegerPart(x.num, x.den);
      var s := Advance(Start(x));
      if s.h >= 1 {
        RunGrows(x, s);
        RunInv(x);
      } else {
        TinyInput(x, s);
      }
    }
  }

  /** An input below one: the next convergent is one over an integer, if that integer is within the limit. */
  lemma TinyInput(x: Rat, s: State)
    requires 0 <= x.num < x.den && Inv(x, s) && s == State(x.den, x.num, 0, 1, 1, 0)
    ensures Found(Run(s)) <==> x.den <= MAX_INT32 * x.num
    ensures Found(Run(s)) ==> Run(s).h >= 1 && Run(s).h0 >= 0
  {
    if x.num > 0 && x.den <= MAX_INT32 * x.num {
      var a := x.den / x.num;
      DivMod(x.den, x.num);
      assert Advance(s) == State(s.q, s.p % s.q, 1, a, 0, 1);
      if a > MAX_INT32 {
        MulMono(MAX_INT32 + 1, a, x.num);
      }
      AdvanceKeepsInv(x, s);
      RunGrows(x, Advance(s));
      RunKeepsInv(x, Advance(s));
    }
  }

  // ---------- exact recovery ----------

  /** g divides what is left over, so the next convergent stays below the reduced fraction n / d. */
  lemma StaysBelow(x: Rat, s: State, g: int, n: int, d: int)
    requires Inv(x, s) && s.q > 0 && 0 <= s.h && 0 <= s.h0
    requires g > 0 && x.num == g * n && x.den == g * d && n <= MAX_INT32 && d <= MAX_INT32
    ensures !Stops(s)
  {
    var t := Advance(s);
    AdvanceRecovers(x, s);
    AdvanceBounds(s);
    MulAtLeast(s.p / s.q, s.h);
    LeftOverMultiple(x, s, g, n, d);
    FactorFits(g, n, t.p, t.h, t.q, t.h0);
    FactorFits(g, d, t.p, t.k, t.q, t.k0);
    LeftOverFits(g, d, s.p, s.q, s.k, s.k0);
  }

  /** A factor of what g times d is made of is at most d when the other factor is at least g. */
  lemma FactorFits(g: int, d: int, a: int, b: int, c: int, e: int)
    requires 0 < g <= a && 0 <= b && 0 <= c && 0 <= e && g * d == a * b + c * e
    ensures b <= d
  {
    MulMono(0, c, e);
    MulMono(g, a, b);
    if b > d { MulStrict(d, b, g); }
  }

  lemma LeftOverFits(g: int, d: int, p: int, q: int, k: int, k0: int)
    requires 0 < g <= q && 0 <= p && 1 <= k && 0 <= k0 && d <= MAX_INT32 && g * d == p * k + q * k0
    ensures p <= MAX_INT32 * q
  {
    MulMono(0, q, k0);
    MulAtLeast(k, p);
    MulMono(g, q, MAX_INT32);
    MulMono(d, MAX_INT32, g);
  }

  lemma LeftOverMultiple(x: Rat, s: State, g: int, n: int, d: int)
    requires Recovers(x, s) && (Det(s) == 1 || Det(s) == -1)
    requires g > 0 && x.num == g * n && x.den == g * d
    ensures s.q == g * (Det(s) * (d * s.h - n * s.k))
    ensures s.q > 0 ==> s.q >= g
  {
    ResidualOfConvergent(x, s);
    var m := Det(s) * (d * s.h - n * s.k);
    calc {
      s.q;
      Det(s) * (s.q * Det(s));
      Det(s) * (g * d * s.h - g * n * s.k);
      g * m;
    }
    if m >= 1 { MulAtLeast(m, g); } else { MulMono(m, 0, g); }
  }

  lemma {:induction false} RunUsesUp(x: Rat, s: State, g: int, n: int, d: int)
    requires Inv(x, s) && 0 <= s.h && 0 <= s.h0
    requires g > 0 && x.num == g * n && x.den == g * d && n <= MAX_INT32 && d <= MAX_INT32
    ensures Run(s).q == 0
    decreases s.q
  {
    if s.q == 0 {
    } else {
      StaysBelow(x, s, g, n, d);
      AdvanceKeepsInv(x, s);
      AdvanceBounds(s);
      MulAtLeast(s.p / s.q, s.h);
      RunUsesUp(x, Advance(s), g, n, d);
    }
  }

  /** If p * h = g * n and p * k = g * d with both fractions in lowest terms, the fractions are the same. */
  lemma SameLowestTerms(g: int, n: int, d: int, p: int, h: int, k: int, h0: int, k0: int)
    requires g > 0 && p > 0 && g * n == p * h && g * d == p * k && Coprime(n, d)
    requires h * k0 - h0 * k == 1 || h * k0 - h0 * k == -1
    ensures h == n && k == d
  {
    var e := h * k0 - h0 * k;
    var t := e * (n * k0 - h0 * d);
    calc {
      t * g;
      e * ((g * n) * k0 - h0 * (g * d));
      e * ((p * h) * k0 - h0 * (p * k));
      e * p * e;
      p;
    }
    CancelFactor(g, n, t * h);
    CancelFactor(g, d, t * k);
    if t <= 0 { MulMono(t, 0, g); }
    MulMod(h, t);
    MulMod(k, t);
    assert CommonDivisor(t, n, d);
  }

  lemma CancelFactor(g: int, a: int, b: int)
    requires g > 0 && g * a == g * b
    ensures a == b
  {
    if a < b { MulStrict(a, b, g); } else if b < a { MulStrict(b, a, g); }
  }

  /** A fraction equal to n / d, which is in lowest terms by the determinant, is n / d scaled up. */
  lemma ScaledUp(num: int, den: int, n: int, d: int, h0: int, k0: int) returns (g: int)
    requires num * d == n * den && d >= 1 && den >= 1
    requires n * k0 - h0 * d == 1 || n * k0 - h0 * d == -1
    ensures g > 0 && num == g * n && den == g * d
  {
    var e := n * k0 - h0 * d;
    g := e * (num * k0 - h0 * den);
    calc {
      g * n;
      e * (k0 * (num * n) - h0 * (n * den));
      e * (k0 * (num * n) - h0 * (num * d));
      e * e * num;
      num;
    }
    calc {
      g * d;
      e * (k0 * (num * d) - h0 * (den * d));
      e * (k0 * (n * den) - h0 * (den * d));
      e * e * den;
      den;
    }
    if g <= 0 { MulMono(g, 0, d); }
  }

  lemma ScaledFits(x: Rat, g: int, n: int, d: int)
    requires g > 0 && x.num == g * n && x.den == g * d && 0 <= n <= MAX_INT32 && 1 <= d
    ensures WithinLimit(x) && 0 <= x.num
  {
    MulAtLeast(d, MAX_INT32);
    MulMono(n, MAX_INT32 * d, g);
    assert g * (MAX_INT32 * d) == MAX_INT32 * x.den;
    MulMono(0, n, g);
  }

  lemma ReducedRecovery(x: Rat, g: int, n: int, d: int)
    requires g > 0 && x.num == g * n && x.den == g * d
    requires 0 <= n <= MAX_INT32 && 1 <= d <= MAX_INT32 && Coprime(n, d)
    ensures var f := Run(Start(x)); f.h == n && f.k == d && f.q == 0 && (Det(f) == 1 || Det(f) == -1)
  {
    ScaledFits(x, g, n, d);
    FirstTurn(x);
    IntegerPart(x.num, x.den);
    var s := Advance(Start(x));
    RunKeepsInv(x, s);
    RunUsesUp(x, s, g, n, d);
    var f := Run(s);
    SameLowestTerms(g, n, d, f.p, f.h, f.k, f.h0, f.k0);
  }

  /** A fraction in lowest terms that fits is recovered exactly, however it was written. */
  lemma ExactRecovery(x: Rat, n: int, d: int)
    requires 0 <= n <= MAX_INT32 && 1 <= d <= MAX_INT32 && Coprime(n, d) && x.num * d == n * x.den
    ensures var f := Run(Start(x)); f.h == n && f.k == d && f.q == 0
  {
    ReducedRecovery(Rat(n, d), 1, n, d);
    var f := Run(Start(Rat(n, d)));
    var g := ScaledUp(x.num, x.den, n, d, f.h0, f.k0);
    ReducedRecovery(x, g, n, d);
  }
}
