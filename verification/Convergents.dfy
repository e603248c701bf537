/** The loop of the continued-fraction parser (price/main.go), followed on Euclid's algorithm: the number left over
    and the last two convergents always determine the input exactly. */
module Convergents {
  import opened Rationals

  const MAX_INT32: int := 0x7fff_ffff

  /** What the loop knows: what is left of `number` is p / q (nothing is left once q == 0), h / k is the last
      convergent appended to `fractions`, and h0 / k0 the one before it. */
  datatype State = State(p: int, q: int, h: int, k: int, h0: int, k0: int)

  function Start(x: Rat): State {
    State(x.num, x.den, 1, 0, 0, 1)
  }

  /** One turn of the loop that appends a convergent. */
  function Advance(s: State): State
    requires s.q > 0
  {
    var a := s.p / s.q;
    State(s.q, s.p % s.q, a * s.h + s.h0, a * s.k + s.k0, s.h, s.k)
  }

  /** Nothing is left, what is left is over the limit, or the next convergent would be. */
  predicate Stops(s: State)
    requires s.q >= 0
  {
    s.q == 0 || s.p > MAX_INT32 * s.q || Advance(s).h > MAX_INT32 || Advance(s).k > MAX_INT32
  }

  /** The state in which the loop stops. */
  function Run(s: State): State
    requires s.q >= 0
    decreases s.q
  {
    if Stops(s) then s else Run(Advance(s))
  }

  /** How many convergents the loop still appends. */
  function Turns(s: State): nat
    requires s.q >= 0
    decreases s.q
  {
    if Stops(s) then 0 else 1 + Turns(Advance(s))
  }

  /** The state after n turns (or where the loop stopped before). */
  function After(s: State, n: nat): State
    requires s.q >= 0
    decreases n
  {
    if n == 0 || Stops(s) then s else After(Advance(s), n - 1)
  }

  function Det(s: State): int {
    s.h * s.k0 - s.h0 * s.k
  }

  /** x = (r * h + h0) / (r * k + k0) for the number r = p / q left over. */
  ghost predicate Recovers(x: Rat, s: State) {
    && x.num == s.p * s.h + s.q * s.h0
    && x.den == s.p * s.k + s.q * s.k0
  }

  /** What every turn keeps, from the first convergent on. */
  ghost predicate Inv(x: Rat, s: State) {
    && s.p > s.q >= 0
    && Recovers(x, s)
    && (Det(s) == 1 || Det(s) == -1)
    && 1 <= s.k <= MAX_INT32 && 0 <= s.k0 <= MAX_INT32
    && s.h <= MAX_INT32 && s.h0 <= MAX_INT32 && (s.k0 == 0 ==> s.h0 == 1)
  }

  /** No more than the largest 32-bit number. */
  predicate WithinLimit(x: Rat) {
    x.num <= MAX_INT32 * x.den
  }

  // ---------- the loop invariant ----------

  lemma AdvanceRecovers(x: Rat, s: State)
    requires s.q > 0 && Recovers(x, s)
    ensures Recovers(x, Advance(s))
  {
    var a, r := s.p / s.q, s.p % s.q;
    DivMod(s.p, s.q);
    calc {
      s.p * s.h + s.q * s.h0;
      { assert s.p == a * s.q + r; }
      (a * s.q + r) * s.h + s.q * s.h0;
      s.q * (a * s.h + s.h0) + r * s.h;
    }
    calc {
      s.p * s.k + s.q * s.k0;
      (a * s.q + r) * s.k + s.q * s.k0;
      s.q * (a * s.k + s.k0) + r * s.k;
    }
  }

  lemma AdvanceFlipsDet(s: State)
    requires s.q > 0
    ensures Det(Advance(s)) == -Det(s)
  {
    var a := s.p / s.q;
    assert (a * s.h + s.h0) * s.k - s.h * (a * s.k + s.k0) == s.h0 * s.k - s.h * s.k0;
  }

  /** When the number left exceeds one, denominators grow at least as in the Fibonacci recurrence. */
  lemma AdvanceBounds(s: State)
    requires 0 < s.q < s.p && 0 <= s.k0 && 1 <= s.k
    ensures Advance(s).p > Advance(s).q >= 0
    ensures s.p / s.q >= 1 && Advance(s).k >= s.k + s.k0
  {
    DivMod(s.p, s.q);
    MulAtLeast(s.p / s.q, s.k);
  }

  lemma AdvanceKeepsInv(x: Rat, s: State)
    requires Inv(x, s) && !Stops(s)
    ensures Inv(x, Advance(s))
  {
    AdvanceRecovers(x, s);
    AdvanceFlipsDet(s);
    AdvanceBounds(s);
  }

  /** The first convergent of a number within the limit is its integer part over one. */
  lemma FirstTurn(x: Rat)
    requires WithinLimit(x)
    ensures !Stops(Start(x)) && Inv(x, Advance(Start(x)))
    ensures Advance(Start(x)) == State(x.den, x.num % x.den, x.num / x.den, 1, 1, 0)
  {
    DivMod(x.num, x.den);
    AdvanceRecovers(x, Start(x));
    if x.num / x.den > MAX_INT32 {
      MulMono(MAX_INT32 + 1, x.num / x.den, x.den);
    }
  }

  lemma {:induction false} RunKeepsInv(x: Rat, s: State)
    requires Inv(x, s)
    ensures Inv(x, Run(s)) && Stops(Run(s))
    decreases s.q
  {
    if Stops(s) {
    } else {
      AdvanceKeepsInv(x, s);
      RunKeepsInv(x, Advance(s));
    }
  }

  lemma RunInv(x: Rat)
    requires WithinLimit(x)
    ensures Inv(x, Run(Start(x))) && Stops(Run(Start(x)))
  {
    FirstTurn(x);
    RunKeepsInv(x, Advance(Start(x)));
  }

  /** Every state the loop passes through, for every input: the input is recovered from it, the determinant of the
      last two convergents alternates between 1 and -1, and the number left over is above one after the first turn. */
  lemma {:induction false} LoopStates(x: Rat, s: State, n: nat)
    requires s.q >= 0 && Recovers(x, s) && (Det(s) == 1 || Det(s) == -1)
    requires n <= Turns(s)
    ensures After(s, n).q >= 0 && Recovers(x, After(s, n))
    ensures Det(After(s, n)) == if n % 2 == 0 then Det(s) else -Det(s)
    ensures n > 0 ==> After(s, n).p > After(s, n).q
    decreases n
  {
    if n == 0 {
    } else {
      AdvanceRecovers(x, s);
      AdvanceFlipsDet(s);
      DivMod(s.p, s.q);
      LoopStates(x, Advance(s), n - 1);
    }
  }

  /** The denominator of the number left over shrinks in every turn. */
  lemma {:induction false} LeftOverShrinks(s: State, n: nat)
    requires s.q >= 0 && n <= Turns(s)
    ensures 0 <= After(s, n).q <= s.q - n
    decreases n
  {
    if n == 0 {
    } else {
      DivMod(s.p, s.q);
      LeftOverShrinks(Advance(s), n - 1);
    }
  }

  // ---------- the number of turns ----------

  function Fib(n: nat): nat {
    if n < 2 then n else Fib(n - 1) + Fib(n - 2)
  }

  lemma {:induction false} FibonacciGrowth(x: Rat, s: State, n: nat, m: nat)
    requires Inv(x, s) && n >= 1 && s.k >= Fib(n) && s.k0 >= Fib(n - 1) && m <= Turns(s)
    ensures Inv(x, After(s, m)) && After(s, m).k >= Fib(n + m)
    decreases m
  {
    if m == 0 {
    } else {
      AdvanceKeepsInv(x, s);
      AdvanceBounds(s);
      FibonacciGrowth(x, Advance(s), n + 1, m - 1);
    }
  }

  /** After m turns the denominator is at least the m-th Fibonacci number, for every input. */
  lemma DenominatorsGrow(x: Rat, m: nat)
    requires 1 <= m <= Turns(Start(x))
    ensures Fib(m) <= After(Start(x), m).k <= MAX_INT32
  {
    assert WithinLimit(x);
    FirstTurn(x);
    FibonacciGrowth(x, Advance(Start(x)), 1, m - 1);
  }

  lemma {:induction false} FibMonotone(m: nat, n: nat)
    requires m <= n
    ensures Fib(m) <= Fib(n)
  {
    if m == n || n < 2 {
    } else {
      FibMonotone(m, n - 1);
    }
  }

  lemma FibLeap(n: nat)
    ensures Fib(n + 5) == 5 * Fib(n + 1) + 3 * Fib(n)
    ensures Fib(n + 6) == 8 * Fib(n + 1) + 5 * Fib(n)
  {
    assert Fib(n + 3) == 2 * Fib(n + 1) + Fib(n) && Fib(n + 4) == 3 * Fib(n + 1) + 2 * Fib(n);
  }

  lemma Fib20()
    ensures Fib(20) == 6765 && Fib(21) == 10946
  {
    FibLeap(0); FibLeap(5); FibLeap(10); FibLeap(15);
  }

  lemma LargestFibIndex(n: nat)
    requires Fib(n) <= MAX_INT32
    ensures n <= 46
  {
    Fib20();
    FibLeap(20); FibLeap(25); FibLeap(30); FibLeap(35); FibLeap(40);
    assert Fib(47) == Fib(46) + Fib(45);
    if n >= 47 {
      FibMonotone(47, n);
    }
  }

  /** Whatever the input, at most 46 convergents are appended. */
  lemma AtMostFortySixTurns(x: Rat)
    ensures Turns(Start(x)) <= 46
  {
    var m := Turns(Start(x));
    if m >= 1 {
      DenominatorsGrow(x, m);
      LargestFibIndex(m);
    }
  }
}
