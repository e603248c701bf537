/** price.Parse: the parser itself, its whole promise, and the two places where its comments promise too much. */
module Price {
  import opened Rationals
  import opened Decimal
  import opened Wrappers
  import opened Convergents
  import opened Approximation
  import opened BestInRange
  import opened NegativePrices

  datatype Price = Price(N: int, D: int)

  datatype PriceError = InvalidFormat | CannotParse | NoApproximation

  /** The conversion to a 32-bit integer keeps the low bits only. */
  function ToInt32(n: int): int {
    var m := n % 0x1_0000_0000;
    if m >= 0x8000_0000 then m - 0x1_0000_0000 else m
  }

  function ParsePrice(v: string): Result<Price, PriceError> {
    if !ValidAmountSimple(v) then Err(InvalidFormat) else
    match SetString(v)
    case None => Err(CannotParse)
    case Some(x) => ToPrice(Run(Start(x)))
  }

  function ToPrice(s: State): Result<Price, PriceError> {
    if Found(s) then Ok(Price(ToInt32(s.h), ToInt32(s.k))) else Err(NoApproximation)
  }

  function Floor(n: Rat): int {
    n.num / n.den
  }

  /** The loop of continuedFraction, with its list of fractions and its running number; the bound on the list is
      the bound on the number of turns. */
  method ContinuedFraction(price: string) returns (r: Result<Price, PriceError>)
    ensures r == ParsePrice(price)
  {
    if !ValidAmountSimple(price) {
      return Err(InvalidFormat);
    }
    var parsed := SetString(price);
    if parsed == None {
      return Err(CannotParse);
    }
    var number := parsed.value;
    ghost var x := number;
    var fractions: seq<(int, int)> := [(0, 1), (1, 0)];
    var i := 2;
    while true
      invariant 2 <= i == |fractions| && OnTheWay(x, number, fractions)
      decreases number.den
    {
      LoopTurn(x, number, fractions);
      if number.num > MAX_INT32 * number.den {
        break;
      }
      var a := Floor(number);
      var f := Rat(number.num - a * number.den, number.den);
      var h := a * fractions[i - 1].0 + fractions[i - 2].0;
      var k := a * fractions[i - 1].1 + fractions[i - 2].1;
      if h > MAX_INT32 || k > MAX_INT32 {
        break;
      }
      fractions := fractions + [(h, k)];
      if f.num == 0 {
        break;
      }
      number := Rat(f.den, f.num);
      i := i + 1;
    }
    assert AtTheEnd(x, fractions);
    var (n, d) := fractions[|fractions| - 1];
    if n == 0 || d == 0 {
      return Err(NoApproximation);
    }
    return Ok(Price(ToInt32(n), ToInt32(d)));
  }

  /** From here the loop goes where it goes from the start. */
  ghost predicate OnTheWay(x: Rat, number: Rat, fractions: seq<(int, int)>)
    requires |fractions| >= 2
  {
    var s := LoopState(number, fractions);
    Run(s) == Run(Start(x)) && |fractions| - 2 + Turns(s) == Turns(Start(x))
  }

  /** The last fraction is the last convergent, and there are no more than 46 of them. */
  ghost predicate AtTheEnd(x: Rat, fractions: seq<(int, int)>) {
    && 2 <= |fractions| <= 48
    && fractions[|fractions| - 1] == (Run(Start(x)).h, Run(Start(x)).k)
  }

  /** What a turn of the loop computes is the next state, unless it stops. */
  lemma LoopTurn(x: Rat, number: Rat, fractions: seq<(int, int)>)
    requires |fractions| >= 2 && OnTheWay(x, number, fractions)
    ensures var a, i := Floor(number), |fractions|;
      var f := number.num - a * number.den;
      var h, k := a * fractions[i - 1].0 + fractions[i - 2].0, a * fractions[i - 1].1 + fractions[i - 2].1;
      if number.num > MAX_INT32 * number.den || h > MAX_INT32 || k > MAX_INT32 then AtTheEnd(x, fractions)
      else if f == 0 then AtTheEnd(x, fractions + [(h, k)])
      else 0 < f < number.den && OnTheWay(x, Rat(number.den, f), fractions + [(h, k)])
  {
    DivMod(number.num, number.den);
    AtMostFortySixTurns(x);
    var s := LoopState(number, fractions);
    if !Stops(s) {
      assert Run(s) == Run(Advance(s)) && Turns(s) == 1 + Turns(Advance(s));
    }
  }

  ghost function LoopState(number: Rat, fractions: seq<(int, int)>): State
    requires |fractions| >= 2
  {
    var last, before := fractions[|fractions| - 1], fractions[|fractions| - 2];
    State(number.num, number.den, last.0, last.1, before.0, before.1)
  }

  /** The whole promise, for every text that does not write a negative number: a price comes out exactly when the
      value is within the limits, it fits in 31 bits both ways, is in lowest terms and is a best approximation. */
  lemma ParsedPrice(v: string)
    requires ValidAmountSimple(v) && SetString(v).Some? && 0 <= SetString(v).value.num
    ensures var x := SetString(v).value;
      && (ParsePrice(v).Ok? <==> x.den <= MAX_INT32 * x.num && WithinLimit(x))
      && (ParsePrice(v).Ok? ==> IsBestPrice(x, ParsePrice(v).value))
      && (ParsePrice(v).Err? ==> ParsePrice(v).error == NoApproximation)
  {
    var x := SetString(v).value;
    ParseOfValue(v, x);
    PriceOf(x);
  }

  /** What is refused for its form is what writes no number with at most twenty digits, the dot being counted: texts of
      other characters or lengths as wrong in format, and texts with two dots or without digits as unreadable. */
  lemma RefusedTexts(v: string)
    ensures ParsePrice(v) in {Err(InvalidFormat), Err(CannotParse)} <==> !WritesNumber(v)
    ensures ParsePrice(v) == Err(InvalidFormat) <==>
      || |Unsigned(v)| == 0 || |Unsigned(v)| > 20
      || exists i :: 0 <= i < |Unsigned(v)| && Unsigned(v)[i] != '.' && !('0' <= Unsigned(v)[i] <= '9')
  {
    AcceptedTexts(v);
  }

  lemma PriceOf(x: Rat)
    requires 0 <= x.num
    ensures var r := ToPrice(Run(Start(x)));
      && (r.Ok? <==> x.den <= MAX_INT32 * x.num && WithinLimit(x))
      && (r.Ok? ==> IsBestPrice(x, r.value))
  {
    SucceedsExactlyInRange(x);
    if Found(Run(Start(x))) {
      UncutPrice(x);
      FoundFits(x);
      UncutIsClosest(x);
      UncutIsSmallest(x);
    }
  }

  lemma UncutIsSmallest(x: Rat)
    requires 0 <= x.num && Found(Run(Start(x)))
    ensures HasSmallestInRange(x, Price(Run(Start(x)).h, Run(Start(x)).k))
  {
    forall p, q | PriceRange(p, q)
      ensures Abs(Residual(x, Run(Start(x)).h, Run(Start(x)).k)) <= Abs(Residual(x, p, q))
    {
      SmallestInRange(x, p, q);
    }
  }

  /** No price within the limits has a smaller residual, whatever its denominator. */
  ghost predicate HasSmallestInRange(x: Rat, price: Price) {
    forall p, q :: PriceRange(p, q) ==> Abs(Residual(x, price.N, price.D)) <= Abs(Residual(x, p, q))
  }

  /** Within 31 bits, as close to x as a fraction of its size can be, and with the smallest residual. */
  ghost predicate IsBestPrice(x: Rat, price: Price) {
    1 <= price.N <= MAX_INT32 && IsClosest(x, price) && HasSmallestInRange(x, price)
  }

  /** In lowest terms, as close to x as every fraction with at most its denominator, and off by less than one over the
      square of its denominator. */
  ghost predicate IsClosest(x: Rat, price: Price) {
    && 1 <= price.D <= MAX_INT32
    && Coprime(price.N, price.D)
    && (forall p, q :: 1 <= q <= price.D ==> NoCloser(x, p, q, price.N, price.D))
    && (x.num * price.D != price.N * x.den ==> Abs(Residual(x, price.N, price.D)) * price.D < x.den)
  }

  lemma ParseOfValue(v: string, x: Rat)
    requires ValidAmountSimple(v) && SetString(v) == Some(x)
    ensures ParsePrice(v) == ToPrice(Run(Start(x)))
  {
  }

  lemma ToPriceRecovers(x: Rat, n: int, d: int)
    requires 1 <= n <= MAX_INT32 && 1 <= d <= MAX_INT32 && Coprime(n, d) && SameValue(x, Rat(n, d))
    ensures ToPrice(Run(Start(x))) == Ok(Price(n, d))
  {
    ExactRecovery(x, n, d);
  }

  /** A price that fits is recovered from any text that writes its value. */
  lemma ParseRecovers(v: string, n: int, d: int)
    requires ValidAmountSimple(v) && SetString(v).Some?
    requires 1 <= n <= MAX_INT32 && 1 <= d <= MAX_INT32 && Coprime(n, d)
    requires SameValue(SetString(v).value, Rat(n, d))
    ensures ParsePrice(v) == Ok(Price(n, d))
  {
    var x := SetString(v).value;
    ParseOfValue(v, x);
    ToPriceRecovers(x, n, d);
  }

  // ---------- where the comments promise too much ----------

  lemma DigitValues()
    ensures Value("22") == 22 && Value("6") == 6 && Value("3") == 3
  {
    assert "2"[..0] == "" && "6"[..0] == "" && "3"[..0] == "";
    assert "22"[..1] == "2";
  }

  lemma SixHundredMillion()
    ensures AllDigits("600000000") && Value("600000000") == 600000000
  {
    DigitValues();
    assert Zeros(8) == "00000000";
    ValueOfZeros(8);
    ValueOfConcat("6", "00000000");
    assert "6" + "00000000" == "600000000";
    assert Pow10(8) == 100000000;
  }

  lemma ThreeBillion()
    ensures AllDigits("3000000000") && Value("3000000000") == 3000000000
  {
    DigitValues();
    assert Zeros(9) == "000000000";
    ValueOfZeros(9);
    ValueOfConcat("3", "000000000");
    assert "3" + "000000000" == "3000000000";
    assert Pow10(9) == 1000000000;
  }

  lemma ExampleText()
    ensures "" + ("600000000" + "." + "22") == "600000000.22" && ValidAmountSimple("600000000.22")
  {
  }

  lemma ExampleValue(v: string)
    requires v == "600000000.22"
    ensures ValidAmountSimple(v) && SetString(v) == Some(Rat(60000000022, 100))
  {
    DigitValues();
    SixHundredMillion();
    ValueOfConcat("600000000", "22");
    assert Pow10(2) == 100;
    SetStringOfParts(false, "600000000", "22");
    ExampleText();
  }

  lemma ExampleRun()
    ensures Run(Start(Rat(60000000022, 100))) == State(100, 22, 600000000, 1, 1, 0)
  {
    var s := Start(Rat(60000000022, 100));
    assert Advance(s) == State(100, 22, 600000000, 1, 1, 0);
    assert Advance(Advance(s)).h == 2400000001;
    assert Run(s) == Advance(s);
  }

  /** 600000000.22 becomes 600000000/1, although 1800000001/3 is also within the limits and closer: fractions between
      two convergents are never tried. */
  lemma NotAlwaysBestInRange(v: string)
    requires v == "600000000.22"
    ensures ParsePrice(v) == Ok(Price(600000000, 1)) && SetString(v).Some?
    ensures PriceRange(1800000001, 3) && !NoCloser(SetString(v).value, 1800000001, 3, 600000000, 1)
  {
    ExampleValue(v);
    ExampleRun();
    ParseOfValue(v, Rat(60000000022, 100));
    assert ToPrice(Run(Start(Rat(60000000022, 100)))) == Ok(Price(600000000, 1));
    ExampleResiduals();
  }

  lemma ExampleResiduals()
    ensures PriceRange(1800000001, 3) && !NoCloser(Rat(60000000022, 100), 1800000001, 3, 600000000, 1)
  {
  }

  /** No price within the limits is closer to x. */
  ghost predicate IsClosestInRange(x: Rat, price: Price) {
    forall p, q :: PriceRange(p, q) ==> NoCloser(x, p, q, price.N, price.D)
  }

  lemma UncutPrice(x: Rat)
    requires 0 <= x.num && Found(Run(Start(x)))
    ensures ToPrice(Run(Start(x))) == Ok(Price(Run(Start(x)).h, Run(Start(x)).k))
  {
    FoundFits(x);
    SmallIsKept(Run(Start(x)).h);
    SmallIsKept(Run(Start(x)).k);
  }

  lemma SmallIsKept(n: int)
    requires 0 <= n <= MAX_INT32
    ensures ToInt32(n) == n
  {
  }

  lemma FoundFits(x: Rat)
    requires 0 <= x.num && Found(Run(Start(x)))
    ensures 1 <= Run(Start(x)).h <= MAX_INT32 && 1 <= Run(Start(x)).k <= MAX_INT32
  {
    SucceedsExactlyInRange(x);
    RunInv(x);
  }

  /** What comes out is the closest of all prices within the limits exactly when the last intermediate fraction that
      fits is no closer. */
  lemma ClosestInRangeExactlyWhen(v: string)
    requires ParsePrice(v).Ok? && SetString(v).Some? && 0 <= SetString(v).value.num
    ensures var x := SetString(v).value;
      var s := Run(Start(x));
      && s.h >= 1 && s.k >= 1
      && (IsClosestInRange(x, ParsePrice(v).value) <==>
            s.q == 0 || s.q * (Room(s) * s.k + s.k0) <= (s.p - Room(s) * s.q) * s.k)
  {
    var x := SetString(v).value;
    ParseOfValue(v, x);
    UncutPrice(x);
    BestInRangeExactlyWhen(x);
    ClosestIsBest(x, Run(Start(x)), ParsePrice(v).value);
  }

  lemma ClosestIsBest(x: Rat, s: State, price: Price)
    requires price == Price(s.h, s.k)
    ensures IsClosestInRange(x, price) <==> BestInRange.BestInRange(x, s)
  {
  }

  lemma UncutIsClosest(x: Rat)
    requires WithinLimit(x)
    ensures IsClosest(x, Price(Run(Start(x)).h, Run(Start(x)).k))
  {
    LowestTermsAndError(x);
    forall p, q | 1 <= q <= Run(Start(x)).k
      ensures NoCloser(x, p, q, Run(Start(x)).h, Run(Start(x)).k)
    {
      BestApproximation(x, p, q);
    }
  }

  lemma LargerIsFarther(den: int, nk: int, h: int, n: int, q: int)
    requires den > 0 && h < n && Abs(den * h - nk) == q && 3 * q <= den
    ensures Abs(den * n - nk) > q
  {
    MulMono(h + 1, n, den);
  }

  lemma FartherIsNotCloser(x: Rat, h: int, n: int, k: int)
    requires k >= 1 && Abs(Residual(x, n, k)) > Abs(Residual(x, h, k))
    ensures !NoCloser(x, h, k, n, k)
  {
    MulStrict(Abs(Residual(x, h, k)), Abs(Residual(x, n, k)), k);
  }

  /** A numerator that lost its high bits makes a price that is far off. */
  lemma CutIsFarOff(x: Rat, f: State, n: int)
    requires x.num < 0 && Inv(x, f) && Stops(f) && Sinks(f) && f.h < n
    ensures !NoCloser(x, f.h, f.k, n, f.k)
  {
    FarFromHalf(x, f);
    LargerIsFarther(x.den, x.num * f.k, f.h, n, f.q);
    FartherIsNotCloser(x, f.h, n, f.k);
  }

  /** Of all fractions whose denominators fit, none has a smaller residual than h / k; the largest denominator is left
      out if k is one. */
  ghost predicate HasSmallestResidual(x: Rat, h: int, k: int) {
    forall p, q :: 1 <= q <= MAX_INT32 && (q < MAX_INT32 || k > 1) ==>
      Abs(Residual(x, h, k)) <= Abs(Residual(x, p, q))
  }

  /** n is the 32-bit number with the low bits of h. */
  predicate IsLowWord(n: int, h: int) {
    -0x8000_0000 <= n < 0x8000_0000 && (h - n) % 0x1_0000_0000 == 0
  }

  /** The promise for numbers below zero, of which the loop checks no lower bound: a price comes out exactly below
      -2^-31; it has the denominator, and the low bits of the numerator, of a fraction with the smallest residual; and
      it is in lowest terms and a best approximation exactly when the integer nearest to x times that denominator is
      not below -2^31. */
  lemma NegativePrice(v: string)
    requires ValidAmountSimple(v) && SetString(v).Some? && SetString(v).value.num < 0
    ensures var x := SetString(v).value;
      && (ParsePrice(v).Ok? <==> x.den < 0x8000_0000 * -x.num)
      && (ParsePrice(v).Ok? ==>
           var price := ParsePrice(v).value;
           && 1 <= price.D <= MAX_INT32 && price.D == Run(Start(x)).k
           && (exists h :: HasSmallestResidual(x, h, price.D) && IsLowWord(price.N, h))
           && (IsClosest(x, price) <==> 2 * (x.num * price.D) > -0x1_0000_0001 * x.den)
           && (IsClosest(x, price) ==> price.N < 0 && HasSmallestResidual(x, price.N, price.D)))
      && (ParsePrice(v).Err? ==> ParsePrice(v).error == NoApproximation)
  {
    var x := SetString(v).value;
    ParseOfValue(v, x);
    NegativePriceOf(x);
  }

  lemma NegativePriceOf(x: Rat)
    requires x.num < 0
    ensures var r := ToPrice(Run(Start(x)));
      && (r.Ok? <==> x.den < 0x8000_0000 * -x.num)
      && (r.Ok? ==>
           && 1 <= r.value.D <= MAX_INT32 && r.value.D == Run(Start(x)).k
           && (exists h :: HasSmallestResidual(x, h, r.value.D) && IsLowWord(r.value.N, h))
           && (IsClosest(x, r.value) <==> 2 * (x.num * r.value.D) > -0x1_0000_0001 * x.den)
           && (IsClosest(x, r.value) ==> r.value.N < 0 && HasSmallestResidual(x, r.value.N, r.value.D)))
  {
    var f := Run(Start(x));
    NegativeSucceedsExactly(x);
    if Found(f) {
      FirstSinks(x);
      RunInv(x);
      UncutIsClosest(x);
      NumeratorIsNearest(x, f, -0x8000_0000);
      assert ToPrice(f).value == Price(ToInt32(f.h), f.k);
      LastHasSmallestResidual(x);
      ToInt32IsLowWord(f.h);
      if ToInt32(f.h) != f.h {
        CutIsFarOff(x, f, ToInt32(f.h));
      }
    }
  }

  lemma LastHasSmallestResidual(x: Rat)
    requires x.num < 0
    ensures HasSmallestResidual(x, Run(Start(x)).h, Run(Start(x)).k)
  {
    forall p, q | 1 <= q <= MAX_INT32 && (q < MAX_INT32 || Run(Start(x)).k > 1)
      ensures Abs(Residual(x, Run(Start(x)).h, Run(Start(x)).k)) <= Abs(Residual(x, p, q))
    {
      SmallestBelowZero(x, p, q);
    }
  }

  lemma ToInt32IsLowWord(n: int)
    ensures IsLowWord(ToInt32(n), n)
  {
  }

  /** So every number from -1 to below -2^-31 gives a best approximation. */
  lemma SmallNegativePrice(v: string)
    requires ValidAmountSimple(v) && SetString(v).Some? && SetString(v).value.num < 0
    requires var x := SetString(v).value; 0 <= x.num + x.den && x.den < 0x8000_0000 * -x.num
    ensures ParsePrice(v).Ok? && IsClosest(SetString(v).value, ParsePrice(v).value)
  {
    var x := SetString(v).value;
    NegativePrice(v);
    NotFarBelow(x.num, x.den, ParsePrice(v).value.D);
  }

  lemma NotFarBelow(num: int, den: int, d: int)
    requires 0 <= num + den && 1 <= den && 1 <= d <= MAX_INT32
    ensures 2 * (num * d) > -0x1_0000_0001 * den
  {
    MulMono(-den, num, d);
    MulMono(d, MAX_INT32, den);
    assert (-den) * d == -(d * den);
  }

  /** A negative fraction in lowest terms whose denominator fits is returned exactly when its numerator is not below the
      smallest 32-bit number. */
  lemma NegativePriceRecovers(v: string, n: int, d: int)
    requires ValidAmountSimple(v) && SetString(v).Some?
    requires n < 0 && 1 <= d <= MAX_INT32 && Coprime(n, d)
    requires SameValue(SetString(v).value, Rat(n, d))
    ensures ParsePrice(v) == Ok(Price(n, d)) <==> n >= -0x8000_0000
  {
    var x := SetString(v).value;
    ParseOfValue(v, x);
    ToPriceNegative(x, n, d);
  }

  lemma ToPriceNegative(x: Rat, n: int, d: int)
    requires n < 0 && 1 <= d <= MAX_INT32 && Coprime(n, d) && SameValue(x, Rat(n, d))
    ensures ToPrice(Run(Start(x))) == Ok(Price(n, d)) <==> n >= -0x8000_0000
  {
    NegativeRecovery(x, n, d);
  }

  /** An integer text is read as that integer. */
  lemma SetStringOfInteger(v: string)
    requires Unsigned(v) != "" && AllDigits(Unsigned(v))
    ensures SetString(v) == Some(Rat(Signed(Negative(v), Value(Unsigned(v))), 1))
  {
    var body := Unsigned(v);
    DotOfDigits(body, "");
    assert body[..|body|] + "" == body;
    assert Pow10(0) == 1;
  }

  lemma NegativePriceWraps(v: string)
    requires v == "-3000000000"
    ensures ParsePrice(v) == Ok(Price(1294967296, 1))
  {
    assert Unsigned(v) == "3000000000";
    ThreeBillion();
    SetStringOfInteger(v);
    ParseOfValue(v, Rat(-3000000000, 1));
    NegativeExampleRun();
  }

  lemma NegativeExampleRun()
    ensures ToPrice(Run(Start(Rat(-3000000000, 1)))) == Ok(Price(1294967296, 1))
  {
    var s := Start(Rat(-3000000000, 1));
    assert Advance(s) == State(1, 0, -3000000000, 1, 1, 0);
    assert Run(s) == Advance(s);
  }
}
