/** How good the returned price is among all prices within the limits. The loop never tries the fractions between two
    convergents, so it is the best one only under a condition, which is exact. */
module BestInRange {
  import opened Rationals
  import opened Convergents
  import opened Approximation

  /** The largest t for which the intermediate fraction (t*h + h0) / (t*k + k0) is still within the limits. */
  function Room(s: State): int
    requires s.h >= 1 && s.k >= 1
  {
    var a, b := (MAX_INT32 - s.h0) / s.h, (MAX_INT32 - s.k0) / s.k;
    if a < b then a else b
  }

  /** The last intermediate fraction between the two latest convergents that is within the limits. */
  function Intermediate(s: State): (int, int)
    requires s.h >= 1 && s.k >= 1
  {
    (Room(s) * s.h + s.h0, Room(s) * s.k + s.k0)
  }

  predicate PriceRange(p: int, q: int) {
    0 <= p <= MAX_INT32 && 1 <= q <= MAX_INT32
  }

  lemma RoomFits(s: State, t: int)
    requires s.h >= 1 && s.k >= 1
    ensures t <= Room(s) <==> t * s.h + s.h0 <= MAX_INT32 && t * s.k + s.k0 <= MAX_INT32
  {
    FloorFits(MAX_INT32 - s.h0, s.h, t);
    FloorFits(MAX_INT32 - s.k0, s.k, t);
  }

  lemma FloorFits(m: int, b: int, t: int)
    requires b >= 1
    ensures t <= m / b <==> t * b <= m
  {
    DivMod(m, b);
    if t <= m / b { MulMono(t, m / b, b); } else { MulMono(m / b + 1, t, b); }
  }

  /** A price was found and something is left over: the next convergent itself is out of range. */
  lemma NextOutOfRange(x: Rat, s: State)
    requires Inv(x, s) && Stops(s) && s.q > 0 && s.h >= 1
    ensures Advance(s).h > MAX_INT32 || Advance(s).k > MAX_INT32
    ensures Room(s) < s.p / s.q
  {
    var a := s.p / s.q;
    if s.p > MAX_INT32 * s.q {
      FloorFits(s.p, s.q, MAX_INT32);
      MulMono(MAX_INT32, a, s.k);
      MulMono(MAX_INT32, a, s.h);
    }
    RoomFits(s, a);
  }

  /** Zero over anything has a larger residual than the last convergent. */
  lemma ZeroIsFar(x: Rat, s: State, q: int)
    requires Inv(x, s) && s.h >= 1 && s.h0 >= 0 && q >= 1
    ensures Abs(Residual(x, 0, q)) >= Abs(Residual(x, s.h, s.k))
  {
    ResidualOfConvergent(x, s);
    MulAtLeast(s.h, s.p);
    MulMono(0, s.q, s.h0);
    MulAtLeast(q, x.num);
  }

  /** The loop goes on as long as it can: of all prices within the limits, none has a smaller residual than the one that
      is returned. */
  lemma SmallestInRange(x: Rat, p: int, q: int)
    requires 0 <= x.num && Found(Run(Start(x))) && PriceRange(p, q)
    ensures Abs(Residual(x, p, q)) >= Abs(Residual(x, Run(Start(x)).h, Run(Start(x)).k))
  {
    SucceedsExactlyInRange(x);
    RunInv(x);
    var s := Run(Start(x));
    ResidualOfConvergent(x, s);
    if s.q > 0 {
      NextOutOfRange(x, s);
      if p == 0 {
        ZeroIsFar(x, s, q);
      } else if Advance(s).k > MAX_INT32 {
        SmallestResidual(x, s, p, q);
      } else {
        SmallestResidualByNumerator(x, s, p, q);
      }
    }
  }

  /** A combination with positive weights, beyond t times the last convergent for each one before it, is at least
      the fraction after the t-th intermediate one. */
  lemma BeyondRoom(u: int, v: int, t: int, h: int, h0: int)
    requires v >= 1 && u >= v * t + 1 && h >= 0 && h0 >= 0 && t * h + h0 >= 0
    ensures u * h + v * h0 >= (t + 1) * h + h0
  {
    MulMono(v * t + 1, u, h);
    MulAtLeast(v, t * h + h0);
    assert v * (t * h + h0) == (v * t) * h + v * h0;
  }

  lemma ResidualOfCombination(x: Rat, s: State, u: int, v: int)
    requires Recovers(x, s)
    ensures Residual(x, u * s.h + v * s.h0, u * s.k + v * s.k0) == Det(s) * (u * s.q - v * s.p)
  {
    ResidualOfConvergent(x, s);
    ResidualBefore(x, s);
    ResidualLinear(x, s.h, s.k, s.h0, s.k0, u, v);
    Distribute(u, v, s.q, s.p, Det(s));
  }

  lemma ResidualBefore(x: Rat, s: State)
    requires Recovers(x, s)
    ensures Residual(x, s.h0, s.k0) == -s.p * Det(s)
  {
    calc {
      Residual(x, s.h0, s.k0);
      (s.p * s.k + s.q * s.k0) * s.h0 - (s.p * s.h + s.q * s.h0) * s.k0;
      -s.p * (s.h * s.k0 - s.h0 * s.k);
    }
  }

  lemma Distribute(u: int, v: int, q: int, p: int, d: int)
    ensures u * (q * d) + v * (-p * d) == d * (u * q - v * p)
  {
  }

  /** What it takes for a combination to be closer than the last convergent, or than the t-th intermediate one. */
  lemma CombinationWeights(s: State, den: int, u: int, v: int, t: int)
    requires den == s.p * s.k + s.q * s.k0
    ensures (u * s.q - v * s.p) * s.k - s.q * (u * s.k + v * s.k0) == -v * den
    ensures (v * s.p - u * s.q) * (t * s.k + s.k0) - (s.p - t * s.q) * (u * s.k + v * s.k0) == (v * t - u) * den
  {
  }

  /** Weights that would be closer than both candidates take the fraction out of range. */
  lemma NoRoomBeyond(x: Rat, s: State, u: int, v: int)
    requires Inv(x, s) && Stops(s) && s.q > 0 && s.h >= 1 && s.h0 >= 0
    requires PriceRange(u * s.h + v * s.h0, u * s.k + v * s.k0)
    ensures !(v >= 1 && u >= v * Room(s) + 1)
  {
    var t := Room(s);
    RoomFits(s, 0);
    RoomFits(s, t + 1);
    if v >= 1 && u >= v * t + 1 {
      MulMono(0, t, s.h);
      MulMono(0, t, s.k);
      BeyondRoom(u, v, t, s.h, s.h0);
      BeyondRoom(u, v, t, s.k, s.k0);
    }
  }

  lemma RatioBound(u: int, v: int, p: int, q: int, t: int)
    requires q > 0 && v >= 1 && t < p / q && u * q >= v * p
    ensures u >= v * t + 1
  {
    DivMod(p, q);
    MulMono((t + 1) * q, p, v);
    assert v * ((t + 1) * q) == (v * t + v) * q;
    if u < v * t + v { MulStrict(u, v * t + v, q); }
  }

  lemma AbsSigned(d: int, w: int)
    requires d == 1 || d == -1
    ensures Abs(d * w) == Abs(w)
  {
  }

  /** No price within the limits is closer than both what is returned and the last intermediate fraction. */
  lemma OneOfTwoIsBest(x: Rat, s: State, p: int, q: int)
    requires Inv(x, s) && Stops(s) && s.q > 0 && s.h >= 1 && s.h0 >= 0 && PriceRange(p, q)
    ensures NoCloser(x, p, q, s.h, s.k) || NoCloser(x, p, q, Intermediate(s).0, Intermediate(s).1)
  {
    var t := Room(s);
    NextOutOfRange(x, s);
    var u, v := Coordinates(s.h, s.k, s.h0, s.k0, p, q);
    NoRoomBeyond(x, s, u, v);
    CombinationWeights(s, x.den, u, v, t);
    var w := u * s.q - v * s.p;
    assert Abs(Residual(x, p, q)) == Abs(w) by {
      ResidualOfCombination(x, s, u, v);
      AbsSigned(Det(s), w);
    }
    if w >= 0 {
      assert Abs(Residual(x, s.h, s.k)) == s.q by {
        ResidualOfConvergent(x, s);
        AbsSigned(Det(s), s.q);
      }
      if v >= 1 { RatioBound(u, v, s.p, s.q, t); } else { MulMono(0, -v, x.den); }
    } else {
      assert Abs(Residual(x, t * s.h + s.h0, t * s.k + s.k0)) == s.p - t * s.q by {
        IntermediateResidual(x, s, t);
      }
      if u >= v * t + 1 {
        NegativeWeights(s, u, v);
      } else {
        MulMono(0, v * t - u, x.den);
      }
    }
  }

  lemma IntermediateResidual(x: Rat, s: State, t: int)
    requires Inv(x, s) && s.q > 0 && t <= s.p / s.q
    ensures Abs(Residual(x, t * s.h + s.h0, t * s.k + s.k0)) == s.p - t * s.q
  {
    ResidualOfCombination(x, s, t, 1);
    AbsSigned(Det(s), t * s.q - s.p);
    FloorFits(s.p, s.q, t);
  }

  lemma NegativeWeights(s: State, u: int, v: int)
    requires s.q > 0 && s.p > 0 && s.k >= 1 && s.k0 >= 0 && u * s.q < v * s.p && u * s.k + v * s.k0 >= 1
    ensures v >= 1
  {
    if v <= 0 {
      MulMono(v, 0, s.p);
      MulMono(v, 0, s.k0);
      if u >= 0 { MulMono(0, u, s.q); } else { MulMono(u, 0, s.k); }
    }
  }

  /** No price within the limits is closer to x than h / k. */
  ghost predicate BestInRange(x: Rat, s: State) {
    forall p, q :: PriceRange(p, q) ==> NoCloser(x, p, q, s.h, s.k)
  }

  predicate IntermediateNoCloser(x: Rat, s: State)
    requires s.h >= 1 && s.k >= 1
  {
    NoCloser(x, Intermediate(s).0, Intermediate(s).1, s.h, s.k)
  }

  /** What the comparison with the last intermediate fraction comes to: what is left over of x is p / q. */
  lemma Compared(x: Rat, s: State)
    requires Inv(x, s) && Stops(s) && s.q > 0 && s.h >= 1
    ensures var t := Room(s); IntermediateNoCloser(x, s) <==> s.q * (t * s.k + s.k0) <= (s.p - t * s.q) * s.k
  {
    var t := Room(s);
    NextOutOfRange(x, s);
    IntermediateResidual(x, s, t);
    ResidualOfConvergent(x, s);
    AbsMul(s.q, Det(s));
    assert Abs(Residual(x, s.h, s.k)) == s.q;
  }

  /** What is returned is the best price within the limits exactly when one particular price, the last intermediate
      fraction, is no closer. */
  lemma BestInRangeExactlyWhen(x: Rat)
    requires 0 <= x.num && Found(Run(Start(x)))
    ensures Run(Start(x)).h >= 1 && Run(Start(x)).k >= 1
    ensures BestInRange(x, Run(Start(x))) <==>
      Run(Start(x)).q == 0 || IntermediateNoCloser(x, Run(Start(x)))
    ensures var s := Run(Start(x));
      var t := Room(s);
      BestInRange(x, s) <==> s.q == 0 || s.q * (t * s.k + s.k0) <= (s.p - t * s.q) * s.k
  {
    SucceedsExactlyInRange(x);
    RunInv(x);
    var s := Run(Start(x));
    ResidualOfConvergent(x, s);
    if s.q > 0 {
      Compared(x, s);
      BestIfIntermediate(x, s);
    }
  }

  lemma BestIfIntermediate(x: Rat, s: State)
    requires Inv(x, s) && Stops(s) && s.q > 0 && s.h >= 1 && s.h0 >= 0
    ensures BestInRange(x, s) <==> IntermediateNoCloser(x, s)
  {
    InRangeOrInfinite(x, s);
    if IntermediateNoCloser(x, s) {
      forall p, q | PriceRange(p, q)
        ensures NoCloser(x, p, q, s.h, s.k)
      {
        OneOfTwoIsBest(x, s, p, q);
        NoCloserTransitive(x, s, p, q);
      }
    }
  }

  /** The last intermediate fraction is a price within the limits, or it is 1/0, which is close to nothing. */
  lemma InRangeOrInfinite(x: Rat, s: State)
    requires Inv(x, s) && s.h >= 1 && s.h0 >= 0
    ensures PriceRange(Intermediate(s).0, Intermediate(s).1) || Intermediate(s) == (1, 0)
  {
    var t := Room(s);
    RoomFits(s, 0);
    RoomFits(s, t);
    MulMono(0, t, s.h);
    MulMono(0, t, s.k);
    if t >= 1 { MulAtLeast(t, s.k); }
  }

  lemma NoCloserTransitive(x: Rat, s: State, p: int, q: int)
    requires Inv(x, s) && s.h >= 1 && s.h0 >= 0 && 1 <= q
    requires NoCloser(x, p, q, s.h, s.k) || NoCloser(x, p, q, Intermediate(s).0, Intermediate(s).1)
    requires IntermediateNoCloser(x, s)
    ensures NoCloser(x, p, q, s.h, s.k)
  {
    InRangeOrInfinite(x, s);
    var i := Intermediate(s);
    if !NoCloser(x, p, q, s.h, s.k) {
      var a, b, c := Abs(Residual(x, s.h, s.k)), Abs(Residual(x, i.0, i.1)), Abs(Residual(x, p, q));
      if i.1 == 0 {
        MulStrict(0, b, q);
      } else {
        CrossChain(a, s.k, b, i.1, c, q);
      }
    }
  }

  /** a/k <= b/m and b/m <= c/q give a/k <= c/q. */
  lemma CrossChain(a: int, k: int, b: int, m: int, c: int, q: int)
    requires k >= 1 && m >= 1 && q >= 1 && a * m <= b * k && b * q <= c * m
    ensures a * q <= c * k
  {
    MulMono(a * m, b * k, q);
    MulMono(b * q, c * m, k);
    assert (a * q) * m <= (c * k) * m;
    if a * q > c * k { MulStrict(c * k, a * q, m); }
  }
}
