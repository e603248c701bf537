/** What the loop of price/main.go, which checks upper bounds only, makes of numbers below zero. */
module NegativePrices {
  import opened Rationals
  import opened Convergents
  import opened Approximation

  /** Numerators are not above zero, except for the one before the first convergent. */
  predicate Sinks(s: State) {
    s.h <= 0 && s.h0 <= 1 && (s.h0 == 1 ==> s.h <= -1) && 0 <= s.k0 <= s.k
  }

  lemma AdvanceSinks(s: State)
    requires Sinks(s) && 0 < s.q < s.p && 1 <= s.k
    ensures Sinks(Advance(s)) && Advance(s).h0 <= 0
  {
    AdvanceBounds(s);
    var a := s.p / s.q;
    MulMono(1, a, -s.h);
    assert a * s.h == -(a * -s.h);
  }

  lemma {:induction false} RunSinks(x: Rat, s: State)
    requires Inv(x, s) && Sinks(s)
    ensures Sinks(Run(s))
    decreases s.q
  {
    if Stops(s) {
    } else {
      AdvanceKeepsInv(x, s);
      AdvanceSinks(s);
      RunSinks(x, Advance(s));
    }
  }

  /** A negative number starts at its floor. */
  lemma FirstSinks(x: Rat)
    requires x.num < 0
    ensures WithinLimit(x) && !Stops(Start(x)) && Inv(x, Advance(Start(x))) && Sinks(Advance(Start(x)))
    ensures Sinks(Run(Start(x)))
  {
    MulMono(0, MAX_INT32, x.den);
    FirstTurn(x);
    DivMod(x.num, x.den);
    if x.num / x.den >= 0 {
      MulMono(0, x.num / x.den, x.den);
    }
    RunSinks(x, Advance(Start(x)));
  }

  // ---------- exact recovery ----------

  /** While something is left over the next convergent's denominator is at most that of the reduced fraction. */
  lemma GoesOn(x: Rat, s: State, g: int, n: int, d: int)
    requires Inv(x, s) && s.q > 0 && Sinks(s)
    requires g > 0 && x.num == g * n && x.den == g * d && d <= MAX_INT32
    ensures !Stops(s)
  {
    var t := Advance(s);
    AdvanceRecovers(x, s);
    AdvanceSinks(s);
    AdvanceBounds(s);
    LeftOverMultiple(x, s, g, n, d);
    FactorFits(g, d, t.p, t.k, t.q, t.k0);
    LeftOverFits(g, d, s.p, s.q, s.k, s.k0);
  }

  lemma {:induction false} UsesUp(x: Rat, s: State, g: int, n: int, d: int)
    requires Inv(x, s) && Sinks(s)
    requires g > 0 && x.num == g * n && x.den == g * d && d <= MAX_INT32
    ensures Run(s).q == 0
    decreases s.q
  {
    if s.q == 0 {
    } else {
      GoesOn(x, s, g, n, d);
      AdvanceKeepsInv(x, s);
      AdvanceSinks(s);
      UsesUp(x, Advance(s), g, n, d);
    }
  }

  lemma ReducedNegative(x: Rat, g: int, n: int, d: int)
    requires g > 0 && x.num == g * n && x.den == g * d
    requires n < 0 && 1 <= d <= MAX_INT32 && Coprime(n, d)
    ensures var f := Run(Start(x)); f.h == n && f.k == d && f.q == 0 && (Det(f) == 1 || Det(f) == -1)
  {
    MulMono(n, -1, g);
    FirstSinks(x);
    RunInv(x);
    UsesUp(x, Advance(Start(x)), g, n, d);
    var f := Run(Start(x));
    SameLowestTerms(g, n, d, f.p, f.h, f.k, f.h0, f.k0);
  }

  /** A negative fraction in lowest terms whose denominator fits is the last convergent, however it was written. */
  lemma NegativeRecovery(x: Rat, n: int, d: int)
    requires n < 0 && 1 <= d <= MAX_INT32 && Coprime(n, d) && x.num * d == n * x.den
    ensures Run(Start(x)).h == n && Run(Start(x)).k == d
  {
    ReducedNegative(Rat(n, d), 1, n, d);
    var f := Run(Start(Rat(n, d)));
    var g := ScaledUp(x.num, x.den, n, d, f.h0, f.k0);
    ReducedNegative(x, g, n, d);
  }

  // ---------- success ----------

  /** Only the convergent 0/1 is refused, and the loop ends there only for numbers next to zero. */
  lemma NothingFound(x: Rat, f: State)
    requires x.num < 0 && Inv(x, f) && Stops(f) && Sinks(f) && f.h == 0
    ensures x.den >= (MAX_INT32 + 1) * -x.num
  {
    assert f.h0 * f.k == 1 || f.h0 * f.k == -1;
    assert f.h0 <= 0;
    if f.h0 <= -2 {
      MulMono(2, -f.h0, f.k);
    }
    assert f.h0 == -1 && f.k == 1 && f.k0 == 1;
    assert x.num == -f.q && x.den == f.p + f.q;
    DivMod(f.p, f.q);
    if f.p <= MAX_INT32 * f.q {
      assert f.p / f.q >= MAX_INT32;
      MulMono(MAX_INT32, f.p / f.q, f.q);
    }
  }

  /** The loop on a number next to zero: -1/1, then 0/1, and then nothing more fits. */
  lemma NextToZero(x: Rat)
    requires x.num < 0 && x.den >= (MAX_INT32 + 1) * -x.num
    ensures Run(Start(x)).h == 0
  {
    var m := -x.num;
    DivModUnique(x.num, x.den, -1, x.den - m);
    DivModUnique(x.den, x.den - m, 1, m);
    FirstSinks(x);
    var s1 := Advance(Start(x));
    assert s1 == State(x.den, x.den - m, -1, 1, 1, 0);
    var s2 := Advance(s1);
    assert s2 == State(x.den - m, m, 0, 1, -1, 1);
    assert !Stops(s1);
    DivMod(s2.p, s2.q);
    if s2.p / s2.q < MAX_INT32 {
      MulMono(s2.p / s2.q + 1, MAX_INT32, m);
    }
    assert Stops(s2);
    assert Run(s1) == Run(s2) == s2;
  }

  /** A negative number gives a price exactly when it is below -2^-31. */
  lemma NegativeSucceedsExactly(x: Rat)
    requires x.num < 0
    ensures Found(Run(Start(x))) <==> x.den < (MAX_INT32 + 1) * -x.num
    ensures Found(Run(Start(x))) ==> Run(Start(x)).h <= -1
  {
    FirstSinks(x);
    RunInv(x);
    if x.den >= (MAX_INT32 + 1) * -x.num {
      NextToZero(x);
    } else if Run(Start(x)).h == 0 {
      NothingFound(x, Run(Start(x)));
    }
  }

  // ---------- how close ----------

  /** The loop stops because the next denominator would be too large, so the last convergent is off by less than a third
      of one over its denominator. */
  lemma FarFromHalf(x: Rat, f: State)
    requires x.num < 0 && Inv(x, f) && Stops(f) && Sinks(f)
    ensures 3 * f.q <= x.den && Abs(Residual(x, f.h, f.k)) == f.q
  {
    ResidualOfConvergent(x, f);
    if f.q > 0 {
      RefusedBelowZero(x, f);
      DivMod(f.p, f.q);
      var t := Advance(f);
      AdvanceRecovers(x, f);
      MulMono(0, t.q, t.k0);
      MulMono(3, t.k, f.q);
    }
  }

  /** The numerator of the last convergent is the integer nearest to its denominator times x. */
  lemma NumeratorIsNearest(x: Rat, f: State, low: int)
    requires x.num < 0 && Inv(x, f) && Stops(f) && Sinks(f)
    ensures f.h >= low <==> 2 * (x.num * f.k) > (2 * low - 1) * x.den
  {
    FarFromHalf(x, f);
    NearestInteger(x.den, x.den * f.h, x.num * f.k, f.h, low, f.q);
  }

  lemma NearestInteger(den: int, dh: int, nk: int, h: int, low: int, q: int)
    requires den > 0 && dh == den * h && Abs(dh - nk) == q && 3 * q <= den
    ensures h >= low <==> 2 * nk > (2 * low - 1) * den
  {
    assert (2 * low - 1) * den == 2 * (low * den) - den;
    if h >= low {
      MulMono(low, h, den);
    } else {
      MulMono(h, low - 1, den);
    }
  }

  /** No fraction within the limits has a smaller residual than the last convergent. Over the largest denominator this
      is so only if the last denominator is not one: the loop stops as soon as what is left is over the limit, although
      the next denominator may then be the limit itself. */
  lemma SmallestBelowZero(x: Rat, p: int, q: int)
    requires x.num < 0 && 1 <= q <= MAX_INT32 && (q < MAX_INT32 || Run(Start(x)).k > 1)
    ensures Abs(Residual(x, p, q)) >= Abs(Residual(x, Run(Start(x)).h, Run(Start(x)).k))
  {
    FirstSinks(x);
    RunInv(x);
    var f := Run(Start(x));
    ResidualOfConvergent(x, f);
    if f.q > 0 {
      RefusedBelowZero(x, f);
      SmallestResidual(x, f, p, q);
    }
  }

  lemma RefusedBelowZero(x: Rat, f: State)
    requires Inv(x, f) && Stops(f) && Sinks(f) && f.q > 0
    ensures Advance(f).k >= MAX_INT32 && (f.k > 1 ==> Advance(f).k > MAX_INT32)
  {
    AdvanceSinks(f);
    var a := f.p / f.q;
    DivMod(f.p, f.q);
    if f.p > MAX_INT32 * f.q {
      if a < MAX_INT32 { MulMono(a + 1, MAX_INT32, f.q); }
      MulMono(MAX_INT32, a, f.k);
      if f.k > 1 { MulMono(2, f.k, MAX_INT32); }
    }
  }
}
