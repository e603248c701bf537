/** Amounts: 64-bit counts of 10^-7 units and their decimal writing (amount/main.go), and the bridge's conversion
    of satoshi and wei into that writing (ValueToStellar). */
module Amount {
  import opened Rationals
  import opened Decimal
  import opened Wrappers

  const ONE: int := 10000000
  const SAT_IN_BTC: pos := 100000000
  const WEI_IN_ETH: pos := 1000000000000000000

  datatype AmountError = InvalidFormat | CannotParse | TooPrecise | OutOfBounds

  function ParseInt64(v: string): Result<int, AmountError> {
    if !ValidAmountSimple(v) then Err(InvalidFormat) else
    match SetString(v)
    case None => Err(CannotParse)
    case Some(x) => Units(Rat(x.num * ONE, x.den))
  }

  /** The end of ParseInt64: the multiplied value must be an integer, and an int64. */
  function Units(r: Rat): Result<int, AmountError> {
    if r.num % r.den != 0 then Err(TooPrecise) else
    match ParseInt(FloatString(r, 0))
    case None => Err(OutOfBounds)
    case Some(i) => Ok(i)
  }

  function StringFromInt64(v: int): string
    requires IsInt64(v)
  {
    FloatString(Rat(v, ONE), 7)
  }

  function IntStringToAmount(v: string): Result<string, AmountError> {
    var u := Unsigned(v);
    if u == "" || !AllDigits(u) then Err(InvalidFormat) else
    var l := |u|;
    var r := if l <= 7 then "0." + Zeros(7 - l) + u else u[..l - 7] + "." + u[l - 7..];
    Ok(Sign(Negative(v)) + r)
  }

  /** bitcoin.Transaction.ValueToStellar */
  function BtcValueToStellar(sat: int): string {
    FloatString(Rat(sat, SAT_IN_BTC), 7)
  }

  /** ethereum.Transaction.ValueToStellar */
  function EthValueToStellar(wei: int): string {
    FloatString(Rat(wei, WEI_IN_ETH), 7)
  }

  // ---------- parsing ----------

  lemma Pow10Values()
    ensures Pow10(0) == 1 && Pow10(7) == ONE && Pow10(12) == 1000000000000
  {
    assert Pow10(3) == 1000;
    Pow10Add(3, 3);
    Pow10Add(6, 6);
    assert Pow10(7) == 10 * Pow10(6);
  }

  lemma UnitsMeaning(r: Rat, i: int)
    ensures Units(r) == Ok(i) <==> IsInt64(i) && r.num == i * r.den
  {
    DivMod(r.num, r.den);
    if r.num % r.den == 0 {
      ParseIntOfFloatString(r);
    }
    if r.num == i * r.den {
      MulMod(i, r.den);
    }
  }

  /** Parsing succeeds exactly on a well-formed text whose value is a whole number of 10^-7 units within int64,
      and then returns that number. */
  lemma ParseInt64Meaning(v: string, i: int)
    ensures ParseInt64(v) == Ok(i) <==>
      ValidAmountSimple(v) && SetString(v).Some? && IsInt64(i) &&
      SetString(v).value.num * ONE == i * SetString(v).value.den
  {
    if SetString(v).Some? {
      UnitsMeaning(Rat(SetString(v).value.num * ONE, SetString(v).value.den), i);
    }
  }

  /** Which error a text gives: a text that writes no number, or too long a one, gives an error of format; a number that
      is no whole number of units is too precise; any other is out of bounds exactly if it is no int64. */
  lemma ParseInt64Errors(v: string, n: int)
    ensures ParseInt64(v) in {Err(InvalidFormat), Err(CannotParse)} <==> !WritesNumber(v)
    ensures ParseInt64(v) == Err(TooPrecise) <==>
      WritesNumber(v) && forall i: int :: i * SetString(v).value.den != SetString(v).value.num * ONE
    ensures WritesNumber(v) && n * SetString(v).value.den == SetString(v).value.num * ONE ==>
      ParseInt64(v) == if -0x8000_0000_0000_0000 <= n < 0x8000_0000_0000_0000 then Ok(n) else Err(OutOfBounds)
  {
    AcceptedTexts(v);
    if WritesNumber(v) {
      var x := SetString(v).value;
      UnitsErrors(Rat(x.num * ONE, x.den), n);
    }
  }

  lemma UnitsErrors(r: Rat, n: int)
    ensures Units(r) !in {Err(InvalidFormat), Err(CannotParse)}
    ensures Units(r) == Err(TooPrecise) <==> forall i: int :: i * r.den != r.num
    ensures n * r.den == r.num ==> Units(r) == if IsInt64(n) then Ok(n) else Err(OutOfBounds)
  {
    DivMod(r.num, r.den);
    if r.num % r.den == 0 {
      ParseIntOfFloatString(r);
      assert (r.num / r.den) * r.den == r.num;
    }
    forall i: int | i * r.den == r.num ensures r.num % r.den == 0 {
      MulMod(i, r.den);
    }
    if n * r.den == r.num {
      MulMod(n, r.den);
    }
  }

  lemma ParseOfUnits(s: string, n: int)
    requires SetString(s) == Some(Rat(n, ONE))
    ensures IsInt64(n) && ValidAmountSimple(s) ==> ParseInt64(s) == Ok(n)
    ensures !IsInt64(n) ==> ParseInt64(s).Err?
  {
    ParseInt64Meaning(s, n);
    if ParseInt64(s).Ok? {
      ParseInt64Meaning(s, ParseInt64(s).value);
    }
  }

  /** An int64 number of units fits in the twenty characters that amounts may have. */
  lemma Int64Fits(x: Rat)
    requires IsInt64(Rounded(x, 7))
    ensures ValidAmountSimple(FloatString(x, 7))
  {
    ShapeOfFixed(x.num < 0, Nearest(x, 7), 7, 12);
    Pow10Values();
    Pow10Add(12, 7);
  }

  /** Printing any rational with seven decimals and parsing it gives the rounded number of units if that is an
      int64, and an error if it is not. */
  lemma ParseOfFloatString(x: Rat)
    ensures IsInt64(Rounded(x, 7)) ==> ParseInt64(FloatString(x, 7)) == Ok(Rounded(x, 7))
    ensures !IsInt64(Rounded(x, 7)) ==> ParseInt64(FloatString(x, 7)).Err?
  {
    SetStringOfFloatString(x, 7);
    Pow10Values();
    ParseOfUnits(FloatString(x, 7), Rounded(x, 7));
    if IsInt64(Rounded(x, 7)) {
      Int64Fits(x);
    }
  }

  /** Every int64, the smallest included, survives being printed and parsed. */
  lemma RoundTrip(v: int)
    requires -0x8000_0000_0000_0000 <= v < 0x8000_0000_0000_0000
    ensures ParseInt64(StringFromInt64(v)) == Ok(v)
  {
    Pow10Values();
    RoundedExact(Rat(v, ONE), 7, v);
    ParseOfFloatString(Rat(v, ONE));
  }

  /** An amount is written with seven decimals, no needless zero in front, and a sign exactly if it is below zero. */
  lemma AmountText(v: int) returns (whole: string, frac: string)
    requires IsInt64(v)
    ensures StringFromInt64(v) == Text(v < 0, whole, true, frac)
    ensures AllDigits(whole) && whole != "" && (whole[0] == '0' ==> whole == "0")
    ensures AllDigits(frac) && |frac| == 7
  {
    whole, frac := PrintedText(Rat(v, ONE), 7);
  }

  // ---------- integer strings ----------

  /** The number an integer string writes. */
  function IntValue(v: string): int
    requires AllDigits(Unsigned(v))
  {
    Signed(Negative(v), Value(Unsigned(v)))
  }

  lemma ShortText(v: string, prec: nat, body: string)
    requires prec == 7 && Unsigned(v) != "" && AllDigits(Unsigned(v)) && |Unsigned(v)| <= prec
    requires body == "0." + Zeros(prec - |Unsigned(v)|) + Unsigned(v)
    ensures IntStringToAmount(v) == Ok(Sign(Negative(v)) + body)
  {
  }

  lemma FilledBody(u: string, prec: nat) returns (z: string, body: string)
    requires AllDigits(u) && |u| <= prec
    ensures z == Zeros(prec - |u|) && body == "0." + z + u && body == "0" + "." + (z + u)
    ensures |z + u| == prec && Value("0" + (z + u)) == Value(u)
  {
    z := Zeros(prec - |u|);
    body := "0." + z + u;
    FilledText(z, u);
    ValueOfZeros(|z|);
    ValueOfFilled(z, u);
  }

  lemma LongText(v: string, prec: nat)
    requires prec == 7 && AllDigits(Unsigned(v)) && |Unsigned(v)| > prec
    ensures var u := Unsigned(v);
      IntStringToAmount(v) == Ok(Sign(Negative(v)) + (u[..|u| - prec] + "." + u[|u| - prec..]))
  {
  }

  lemma ShortTextRead(v: string, prec: nat)
    requires prec == 7 && Unsigned(v) != "" && AllDigits(Unsigned(v)) && |Unsigned(v)| <= prec
    ensures IntStringToAmount(v).Ok?
    ensures SetString(IntStringToAmount(v).value) == Some(Rat(IntValue(v), Pow10(prec)))
  {
    var z, body := FilledBody(Unsigned(v), prec);
    ShortText(v, prec, body);
    SetStringOfFilled(Negative(v), z, Unsigned(v), body);
  }

  lemma LongTextRead(v: string, prec: nat)
    requires prec == 7 && AllDigits(Unsigned(v)) && |Unsigned(v)| > prec
    ensures IntStringToAmount(v).Ok?
    ensures SetString(IntStringToAmount(v).value) == Some(Rat(IntValue(v), Pow10(prec)))
  {
    LongText(v, prec);
    SetStringOfSplit(Negative(v), Unsigned(v), prec);
  }

  /** An integer string of any length is divided by exactly 10^7. */
  lemma IntStringDivided(v: string)
    requires Unsigned(v) != "" && AllDigits(Unsigned(v))
    ensures IntStringToAmount(v).Ok?
    ensures SetString(IntStringToAmount(v).value) == Some(Rat(IntValue(v), Pow10(7)))
  {
    if |Unsigned(v)| <= 7 { ShortTextRead(v, 7); } else { LongTextRead(v, 7); }
  }

  /** What is refused is what writes no number, and what has a dot. */
  lemma IntStringAccepted(v: string)
    ensures IntStringToAmount(v).Ok? <==> SetString(v).Some? && forall i :: 0 <= i < |v| ==> v[i] != '.'
    ensures IntStringToAmount(v).Err? ==> IntStringToAmount(v).error == InvalidFormat
  {
    var u := Unsigned(v);
    assert forall i :: 0 <= i < |u| ==> u[i] in v;
    if u != "" && AllDigits(u) {
      DotOfDigits(u, "");
      assert u[..|u|] == u;
      assert forall i :: 0 <= i < |v| ==> v[i] == '-' || v[i] in u;
    }
    if SetString(v).Some? && forall i :: 0 <= i < |v| ==> v[i] != '.' {
      assert Dot(u) == |u| && u[..|u|] == u;
    }
  }

  /** On shortest writings of integers of any size, the text function agrees with fixed-point printing. */
  lemma IntStringAgrees(n: int)
    ensures IntStringToAmount(IntString(n)) == Ok(FloatString(Rat(n, ONE), 7))
  {
    IntStringParts(n);
    Pow10Values();
    RoundedExact(Rat(n, ONE), 7, n);
    AgreesByLength(n, 7);
  }

  lemma AgreesByLength(n: int, prec: nat)
    requires prec == 7
    requires Unsigned(IntString(n)) == Digits(Abs(n)) && Negative(IntString(n)) == (n < 0)
    ensures IntStringToAmount(IntString(n)) == Ok(Fixed(n < 0, Abs(n), prec))
  {
    FixedByText(n < 0, Abs(n), prec);
    if |Digits(Abs(n))| <= prec {
      var d := Digits(Abs(n));
      ShortText(IntString(n), prec, "0." + Zeros(prec - |d|) + d);
    } else {
      LongText(IntString(n), prec);
    }
  }

  lemma IntStringParts(n: int)
    ensures Unsigned(IntString(n)) == Digits(Abs(n)) && Negative(IntString(n)) == (n < 0)
  {
    assert IsDigit(Digits(Abs(n))[0]);
    SignOfParts(n < 0, Digits(Abs(n)));
  }

  // ---------- crediting deposits ----------

  /** The number of units a Bitcoin deposit is worth. */
  function BtcCredit(sat: int): int {
    Rounded(Rat(sat, SAT_IN_BTC), 7)
  }

  function EthCredit(wei: int): int {
    Rounded(Rat(wei, WEI_IN_ETH), 7)
  }

  /** A satoshi value is credited as that value divided by ten, rounded half away from zero. */
  lemma BtcCreditParsed(sat: int)
    requires IsInt64(sat)
    ensures ParseInt64(BtcValueToStellar(sat)) == Ok(BtcCredit(sat))
    ensures Abs(10 * BtcCredit(sat) - sat) <= 5
    ensures Abs(10 * BtcCredit(sat) - sat) == 5 ==> Abs(10 * BtcCredit(sat)) > Abs(sat)
  {
    Pow10Values();
    RoundedIsNearest(Rat(sat, SAT_IN_BTC), 7);
    TenthOf(BtcCredit(sat), sat);
    ParseOfFloatString(Rat(sat, SAT_IN_BTC));
  }

  lemma TenthOf(r: int, sat: int)
    requires 2 * Abs(r * 100000000 - sat * 10000000) <= 100000000
    ensures Abs(10 * r - sat) <= 5
    ensures Abs(10 * r - sat) == 5 ==> 2 * Abs(r * 100000000 - sat * 10000000) == 100000000
    ensures Abs(r * 100000000) > Abs(sat * 10000000) ==> Abs(10 * r) > Abs(sat)
  {
  }

  /** The same for wei, of which there are 10^11 in a unit; the text parses when the credit is an int64. */
  lemma EthCreditParsed(wei: int)
    ensures IsInt64(EthCredit(wei)) <==> ParseInt64(EthValueToStellar(wei)).Ok?
    ensures IsInt64(EthCredit(wei)) ==> ParseInt64(EthValueToStellar(wei)) == Ok(EthCredit(wei))
    ensures Abs(100000000000 * EthCredit(wei) - wei) <= 50000000000
    ensures Abs(100000000000 * EthCredit(wei) - wei) == 50000000000 ==> Abs(100000000000 * EthCredit(wei)) > Abs(wei)
  {
    Pow10Values();
    RoundedIsNearest(Rat(wei, WEI_IN_ETH), 7);
    HundredBillionthOf(EthCredit(wei), wei);
    ParseOfFloatString(Rat(wei, WEI_IN_ETH));
  }

  lemma HundredBillionthOf(r: int, wei: int)
    requires 2 * Abs(r * 1000000000000000000 - wei * 10000000) <= 1000000000000000000
    ensures Abs(100000000000 * r - wei) <= 50000000000
    ensures Abs(100000000000 * r - wei) == 50000000000
      ==> 2 * Abs(r * 1000000000000000000 - wei * 10000000) == 1000000000000000000
    ensures Abs(r * 1000000000000000000) > Abs(wei * 10000000) ==> Abs(100000000000 * r) > Abs(wei)
  {
  }

  function Sum(s: seq<int>): int {
    if s == [] then 0 else Sum(s[..|s| - 1]) + s[|s| - 1]
  }

  function Credits(deposits: seq<int>): seq<int> {
    seq(|deposits|, i requires 0 <= i < |deposits| => BtcCredit(deposits[i]))
  }

  lemma {:induction false} SumsStayClose(credits: seq<int>, deposits: seq<int>)
    requires |credits| == |deposits|
    requires forall i :: 0 <= i < |credits| ==> Abs(10 * credits[i] - deposits[i]) <= 5
    ensures Abs(10 * Sum(credits) - Sum(deposits)) <= 5 * |deposits|
  {
    if deposits == [] {
    } else {
      SumsStayClose(credits[..|credits| - 1], deposits[..|deposits| - 1]);
    }
  }

  lemma CreditIsClose(sat: int, credit: int)
    requires IsInt64(sat) && credit == BtcCredit(sat)
    ensures Abs(10 * credit - sat) <= 5
  {
    BtcCreditParsed(sat);
  }

  /** Over any list of deposits, ten times what is credited is within five satoshi a deposit of what came in. */
  lemma CreditsConserved(deposits: seq<int>)
    requires forall i :: 0 <= i < |deposits| ==> IsInt64(deposits[i])
    ensures Abs(10 * Sum(Credits(deposits)) - Sum(deposits)) <= 5 * |deposits|
  {
    var credits := Credits(deposits);
    forall i | 0 <= i < |deposits|
      ensures Abs(10 * credits[i] - deposits[i]) <= 5
    {
      CreditIsClose(deposits[i], credits[i]);
    }
    SumsStayClose(credits, deposits);
  }
}
