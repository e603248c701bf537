/** Decimal text: the digit grammar that `big.Rat.SetString` accepts behind the program's regular expressions,
    and the rounding printer `big.Rat.FloatString`. */
module Decimal {
  import opened Rationals
  import opened Wrappers

  predicate IsDigit(c: char) {
    '0' <= c <= '9'
  }

  predicate AllDigits(s: string) {
    forall i :: 0 <= i < |s| ==> IsDigit(s[i])
  }

  /** The number a string of digits writes; the empty string is zero. */
  function Value(s: string): nat
    requires AllDigits(s)
  {
    if s == [] then 0 else 10 * Value(s[..|s| - 1]) + (s[|s| - 1] as int - '0' as int)
  }

  predicate Negative(s: string) {
    s != "" && s[0] == '-'
  }

  function Unsigned(s: string): string {
    if Negative(s) then s[1..] else s
  }

  function Sign(negative: bool): string {
    if negative then "-" else ""
  }

  function Signed(negative: bool, n: nat): int {
    var m: int := n;
    if negative then -m else m
  }

  /** The expression ^-?[.0-9]{1,20}$ that amounts and prices must match. */
  predicate ValidAmountSimple(s: string) {
    && 1 <= |Unsigned(s)| <= 20
    && forall i :: 0 <= i < |Unsigned(s)| ==> Unsigned(s)[i] == '.' || IsDigit(Unsigned(s)[i])
  }

  /** The first dot, or the end. */
  function Dot(s: string): (i: nat)
    ensures i <= |s|
    ensures forall j :: 0 <= j < i ==> s[j] != '.'
    ensures i < |s| ==> s[i] == '.'
  {
    if s == "" || s[0] == '.' then 0 else 1 + Dot(s[1..])
  }

  /** A sign, then digits with at most one dot and at least one digit. */
  function SetString(s: string): Option<Rat> {
    var body := Unsigned(s);
    var i := Dot(body);
    var whole, frac := body[..i], if i < |body| then body[i + 1..] else "";
    if AllDigits(whole) && AllDigits(frac) && whole + frac != "" then
      Some(Rat(Signed(Negative(s), Value(whole + frac)), Pow10(|frac|)))
    else
      None
  }

  /** The shortest decimal writing of n. */
  function Digits(n: nat): (s: string)
    ensures s != "" && AllDigits(s)
  {
    var last := [(n % 10 + '0' as int) as char];
    if n < 10 then last else Digits(n / 10) + last
  }

  function IntString(n: int): string {
    Sign(n < 0) + Digits(Abs(n))
  }

  function Zeros(n: nat): (s: string)
    ensures |s| == n && AllDigits(s)
  {
    if n == 0 then "" else Zeros(n - 1) + "0"
  }

  /** n with leading zeros up to the given width. */
  function Padded(n: nat, width: nat): (s: string)
    ensures AllDigits(s)
  {
    var d := Digits(n);
    if |d| >= width then d else Zeros(width - |d|) + d
  }

  /** The nearest integer to b / d; a half goes up. */
  function HalfUp(b: nat, d: pos): nat {
    (2 * b + d) / (2 * d)
  }

  /** The number of units of 10^-prec nearest to |x|. */
  function Nearest(x: Rat, prec: nat): nat {
    HalfUp(Abs(x.num * Pow10(prec)), x.den)
  }

  /** x rounded to prec decimals, half away from zero, as an integer number of units of 10^-prec. */
  function Rounded(x: Rat, prec: nat): int {
    Signed(x.num < 0, Nearest(x, prec))
  }

  function Quot(a: nat, b: pos): nat {
    a / b
  }

  function Rem(a: nat, b: pos): nat {
    a % b
  }

  /** t units of 10^-prec, written out. */
  function Fixed(negative: bool, t: nat, prec: nat): string {
    var whole := Digits(Quot(t, Pow10(prec)));
    var body := if prec == 0 then whole else whole + "." + Padded(Rem(t, Pow10(prec)), prec);
    Sign(negative) + body
  }

  function FloatString(x: Rat, prec: nat): string {
    Fixed(x.num < 0, Nearest(x, prec), prec)
  }

  /** strconv.ParseInt(s, 10, 64) on a sign and digits: the number, if it is an int64. */
  function ParseInt(s: string): Option<int> {
    if Unsigned(s) != "" && AllDigits(Unsigned(s)) && IsInt64(Signed(Negative(s), Value(Unsigned(s)))) then
      Some(Signed(Negative(s), Value(Unsigned(s))))
    else
      None
  }

  predicate IsInt64(n: int) {
    -0x8000_0000_0000_0000 <= n <= 0x7fff_ffff_ffff_ffff
  }

  // ---------- facts about the writing of numbers ----------

  lemma TenTimes(a: int, p: int, q: int)
    requires p == 10 * q
    ensures a * p == 10 * (a * q)
  {
  }

  lemma {:induction false} ValueOfConcat(a: string, b: string)
    requires AllDigits(a) && AllDigits(b)
    ensures AllDigits(a + b) && Value(a + b) == Value(a) * Pow10(|b|) + Value(b)
  {
    if b == "" {
      assert a + b == a;
    } else {
      var b0 := b[..|b| - 1];
      ValueOfConcat(a, b0);
      assert (a + b)[..|a + b| - 1] == a + b0;
      assert Value(a + b) == 10 * Value(a + b0) + (b[|b| - 1] as int - '0' as int);
      TenTimes(Value(a), Pow10(|b|), Pow10(|b0|));
    }
  }

  lemma {:induction false} ValueOfZeros(n: nat)
    ensures Value(Zeros(n)) == 0
  {
    if n == 0 {
      assert Zeros(n) == "";
    } else {
      var z := Zeros(n);
      assert z[n - 1] == '0' && z[..n - 1] == Zeros(n - 1);
      ValueOfZeros(n - 1);
    }
  }

  lemma {:induction false} ValueOfDigits(n: nat)
    ensures Value(Digits(n)) == n
  {
    var s := Digits(n);
    if n < 10 {
    } else {
      assert s[..|s| - 1] == Digits(n / 10);
      ValueOfDigits(n / 10);
    }
  }

  /** n has at most m digits exactly when n < 10^m. */
  lemma {:induction false} LengthOfDigits(n: nat, m: nat)
    requires m >= 1
    ensures |Digits(n)| <= m <==> n < Pow10(m)
  {
    assert Pow10(m) == 10 * Pow10(m - 1);
    if n < 10 {
    } else {
      if m >= 2 {
        LengthOfDigits(n / 10, m - 1);
      } else {
        assert Pow10(m - 1) == 1;
      }
    }
  }

  lemma ZeroPrefix(z: string, u: string)
    requires AllDigits(z) && AllDigits(u) && Value(z) == 0
    ensures Value(z + u) == Value(u)
  {
    ValueOfConcat(z, u);
  }

  lemma ZerosFirst(n: nat, u: string)
    requires AllDigits(u)
    ensures Value(Zeros(n) + u) == Value(u) && |Zeros(n) + u| == n + |u|
  {
    ValueOfZeros(n);
    ZeroPrefix(Zeros(n), u);
  }

  lemma ValueOfPadded(n: nat, width: nat)
    requires n < Pow10(width) && width >= 1
    ensures Value(Padded(n, width)) == n && |Padded(n, width)| == width
  {
    ValueOfDigits(n);
    LengthOfDigits(n, width);
    if |Digits(n)| < width {
      ZerosFirst(width - |Digits(n)|, Digits(n));
    }
  }

  lemma DotOfDigits(a: string, b: string)
    requires AllDigits(a)
    ensures Dot(a + "." + b) == |a| && Dot(a) == |a|
  {
    var s := a + "." + b;
    assert s[|a|] == '.';
    assert forall j :: 0 <= j < |a| ==> s[j] == a[j];
  }

  lemma SignOfParts(negative: bool, body: string)
    requires body != "" && body[0] != '-'
    ensures var s := Sign(negative) + body; Unsigned(s) == body && Negative(s) == negative
  {
    var s := Sign(negative) + body;
    if negative {
      assert s[0] == '-' && s[1..] == body;
    } else {
      assert s == body;
    }
  }

  /** Reading "whole.frac" back, with a sign or without. */
  lemma SetStringOfParts(negative: bool, whole: string, frac: string)
    requires AllDigits(whole) && AllDigits(frac) && whole != ""
    ensures var s := Sign(negative) + (whole + "." + frac);
      SetString(s) == Some(Rat(Signed(negative, Value(whole + frac)), Pow10(|frac|)))
  {
    var body := whole + "." + frac;
    assert body[0] == whole[0];
    SignOfParts(negative, body);
    DotOfDigits(whole, frac);
    assert body[..|whole|] == whole && body[|whole| + 1..] == frac;
  }

  /** A string of digits is determined by its length and the number it writes. */
  lemma {:induction false} SameDigits(a: string, b: string)
    requires AllDigits(a) && AllDigits(b) && |a| == |b| && Value(a) == Value(b)
    ensures a == b
  {
    if a == "" {
    } else {
      SameDigits(a[..|a| - 1], b[..|b| - 1]);
      assert a == a[..|a| - 1] + [a[|a| - 1]] && b == b[..|b| - 1] + [b[|b| - 1]];
    }
  }

  lemma QuotRem(t: nat, b: pos)
    ensures t == Quot(t, b) * b + Rem(t, b) && Rem(t, b) < b
  {
    DivMod(t, b);
  }

  /** The two halves of a fixed-point writing, put together, write the number of units. */
  lemma ValueOfFixed(t: nat, prec: nat)
    requires prec >= 1
    ensures var whole, frac := Digits(Quot(t, Pow10(prec))), Padded(Rem(t, Pow10(prec)), prec);
      |frac| == prec && Value(whole + frac) == t
  {
    QuotRem(t, Pow10(prec));
    ValueOfDigits(Quot(t, Pow10(prec)));
    ValueOfPadded(Rem(t, Pow10(prec)), prec);
    ValueOfConcat(Digits(Quot(t, Pow10(prec))), Padded(Rem(t, Pow10(prec)), prec));
  }

  lemma {:induction false} Pow10Add(a: nat, b: nat)
    ensures Pow10(a + b) == Pow10(a) * Pow10(b)
  {
    if a == 0 {
    } else {
      Pow10Add(a - 1, b);
      assert Pow10(a + b) == 10 * Pow10(a - 1 + b);
      assert (10 * Pow10(a - 1)) * Pow10(b) == 10 * (Pow10(a - 1) * Pow10(b));
    }
  }

  lemma QuotBound(n: nat, prec: nat, w: nat)
    ensures Quot(n, Pow10(prec)) < Pow10(w) <==> n < Pow10(w + prec)
  {
    var q := Quot(n, Pow10(prec));
    QuotRem(n, Pow10(prec));
    Pow10Add(w, prec);
    if q < Pow10(w) {
      MulMono(q + 1, Pow10(w), Pow10(prec));
    } else {
      MulMono(Pow10(w), q, Pow10(prec));
    }
  }

  /** Fixed-point writing splits a number of units into digits without changing how many there are. */
  lemma SplitLength(n: nat, prec: nat)
    requires n >= Pow10(prec)
    ensures |Digits(n)| == |Digits(Quot(n, Pow10(prec)))| + prec
  {
    var q := Quot(n, Pow10(prec));
    var w := |Digits(q)|;
    LengthOfDigits(q, w);
    QuotBound(n, prec, w);
    LengthOfDigits(n, w + prec);
    QuotBound(n, prec, w - 1);
    if |Digits(n)| < w + prec {
      LengthOfDigits(n, w - 1 + prec);
      if w >= 2 {
        LengthOfDigits(q, w - 1);
      }
    }
  }

  /** Cutting off the last prec digits of a longer number gives the same text as fixed-point writing. */
  lemma DigitsOfLongNumber(n: nat, prec: nat)
    requires prec >= 1 && n >= Pow10(prec)
    ensures Digits(n) == Digits(Quot(n, Pow10(prec))) + Padded(Rem(n, Pow10(prec)), prec)
  {
    ValueOfFixed(n, prec);
    ValueOfDigits(n);
    SplitLength(n, prec);
    SameDigits(Digits(n), Digits(Quot(n, Pow10(prec))) + Padded(Rem(n, Pow10(prec)), prec));
  }

  // ---------- printing and reading back ----------

  /** Printing a rational with prec decimals and reading it back gives the rounded value exactly. */
  lemma SetStringOfFloatString(x: Rat, prec: nat)
    requires prec >= 1
    ensures SetString(FloatString(x, prec)) == Some(Rat(Rounded(x, prec), Pow10(prec)))
  {
    var t := Nearest(x, prec);
    ValueOfFixed(t, prec);
    SetStringOfParts(x.num < 0, Digits(Quot(t, Pow10(prec))), Padded(Rem(t, Pow10(prec)), prec));
  }

  lemma HalfUpIsNearest(b: nat, d: pos)
    ensures b - HalfUp(b, d) * d <= HalfUp(b, d) * d - b + d - 1
    ensures 2 * (HalfUp(b, d) * d - b) <= d
  {
    DivMod(2 * b + d, 2 * d);
    assert HalfUp(b, d) * (2 * d) == 2 * (HalfUp(b, d) * d);
  }

  lemma NegMul(a: int, b: int)
    ensures (-a) * b == -(a * b)
  {
  }

  lemma SignOfProduct(a: int, b: int)
    requires 0 < b
    ensures a < 0 <==> a * b < 0
  {
    if a < 0 { MulStrict(a, 0, b); } else { MulMono(0, a, b); }
  }

  /** Rounding is to the nearest unit, and a tie goes away from zero. */
  lemma RoundedIsNearest(x: Rat, prec: nat)
    ensures 2 * Abs(Rounded(x, prec) * x.den - x.num * Pow10(prec)) <= x.den
    ensures 2 * Abs(Rounded(x, prec) * x.den - x.num * Pow10(prec)) == x.den
      ==> Abs(Rounded(x, prec) * x.den) > Abs(x.num * Pow10(prec))
  {
    var b := x.num * Pow10(prec);
    var t := HalfUp(Abs(b), x.den);
    SignOfProduct(x.num, Pow10(prec));
    HalfUpIsNearest(Abs(b), x.den);
    NegMul(t, x.den);
  }

  /** A value with no more than prec decimals is printed without rounding. */
  lemma RoundedExact(x: Rat, prec: nat, n: int)
    requires x.num * Pow10(prec) == n * x.den
    ensures Nearest(x, prec) == Abs(n) && Rounded(x, prec) == n && (x.num < 0 <==> n < 0)
  {
    SignOfProduct(x.num, Pow10(prec));
    SignOfProduct(n, x.den);
    AbsMul(n, x.den);
    var b := Abs(n) * x.den;
    assert 2 * b + x.den == Abs(n) * (2 * x.den) + x.den;
    DivModUnique(2 * b + x.den, 2 * x.den, Abs(n), x.den);
  }

  /** An integer printed with no decimals is its shortest writing, and reads back if it is an int64. */
  lemma ParseIntOfFloatString(x: Rat)
    requires x.num % x.den == 0
    ensures var n := x.num / x.den;
      FloatString(x, 0) == IntString(n) && ParseInt(FloatString(x, 0)) == if IsInt64(n) then Some(n) else None
  {
    var n := x.num / x.den;
    DivMod(x.num, x.den);
    assert Pow10(0) == 1;
    RoundedExact(x, 0, n);
    var d := Digits(Abs(n));
    assert Quot(Abs(n), 1) == Abs(n);
    ValueOfDigits(Abs(n));
    assert IsDigit(d[0]);
    SignOfParts(n < 0, d);
  }

  /** A fixed-point writing: only digits and the dot, and at most w digits before it exactly when t < 10^(w+prec). */
  lemma ShapeOfFixed(negative: bool, t: nat, prec: nat, w: nat)
    requires prec >= 1 && w >= 1
    ensures var u := Unsigned(Fixed(negative, t, prec));
      && (forall i :: 0 <= i < |u| ==> u[i] == '.' || IsDigit(u[i]))
      && |u| > prec && (|u| <= w + 1 + prec <==> t < Pow10(w + prec))
  {
    var whole, frac := Digits(Quot(t, Pow10(prec))), Padded(Rem(t, Pow10(prec)), prec);
    ValueOfFixed(t, prec);
    ShapeOfParts(negative, whole, frac);
    QuotBound(t, prec, w);
    LengthOfDigits(Quot(t, Pow10(prec)), w);
  }

  lemma ShapeOfParts(negative: bool, whole: string, frac: string)
    requires AllDigits(whole) && AllDigits(frac) && whole != ""
    ensures var u := Unsigned(Sign(negative) + (whole + "." + frac));
      && (forall i :: 0 <= i < |u| ==> u[i] == '.' || IsDigit(u[i]))
      && |u| == |whole| + 1 + |frac|
  {
    var body := whole + "." + frac;
    assert body[0] == whole[0] && IsDigit(whole[0]);
    SignOfParts(negative, body);
  }

  /** Putting in a dot before the last prec digits divides by 10^prec. */
  lemma SetStringOfSplit(negative: bool, u: string, prec: nat)
    requires AllDigits(u) && |u| > prec
    ensures SetString(Sign(negative) + (u[..|u| - prec] + "." + u[|u| - prec..])) ==
      Some(Rat(Signed(negative, Value(u)), Pow10(prec)))
  {
    var whole, frac := u[..|u| - prec], u[|u| - prec..];
    assert whole + frac == u;
    assert AllDigits(whole) && AllDigits(frac) && |frac| == prec;
    SetStringOfParts(negative, whole, frac);
  }

  lemma FilledText(z: string, u: string)
    ensures "0." + z + u == "0" + "." + (z + u)
  {
  }

  lemma ValueOfFilled(z: string, u: string)
    requires AllDigits(z) && Value(z) == 0 && AllDigits(u)
    ensures Value("0" + (z + u)) == Value(u)
  {
    ZeroPrefix(z, u);
    assert Value("0") == 0;
    ZeroPrefix("0", z + u);
  }

  /** A number with too few digits is filled with zeros first. */
  lemma SetStringOfFilled(negative: bool, z: string, u: string, body: string)
    requires AllDigits(z) && AllDigits(u) && body == "0" + "." + (z + u) && Value("0" + (z + u)) == Value(u)
    ensures SetString(Sign(negative) + body) == Some(Rat(Signed(negative, Value(u)), Pow10(|z + u|)))
  {
    SetStringOfParts(negative, "0", z + u);
  }

  /** Fixed-point writing of an integer's shortest digits, by cutting or by filling. */
  lemma FixedByText(negative: bool, n: nat, prec: nat)
    requires prec >= 1
    ensures var d := Digits(n);
      Fixed(negative, n, prec) == Sign(negative) +
        (if |d| <= prec then "0." + Zeros(prec - |d|) + d else d[..|d| - prec] + "." + d[|d| - prec..])
  {
    var d := Digits(n);
    LengthOfDigits(n, prec);
    if n < Pow10(prec) {
      DivModUnique(n, Pow10(prec), 0, n);
      assert "0" + "." + Padded(n, prec) == "0." + Zeros(prec - |d|) + d;
    } else {
      DigitsOfLongNumber(n, prec);
      ValueOfFixed(n, prec);
      var whole, frac := Digits(Quot(n, Pow10(prec))), Padded(Rem(n, Pow10(prec)), prec);
      assert d[..|d| - prec] == whole && d[|d| - prec..] == frac;
    }
  }

  // ---------- which texts are read ----------

  /** Digits, and digits after a dot. */
  function BodyOf(whole: string, dotted: bool, frac: string): string {
    if dotted then whole + "." + frac else whole
  }

  /** The writing of a number. */
  function Text(negative: bool, whole: string, dotted: bool, frac: string): string {
    Sign(negative) + BodyOf(whole, dotted, frac)
  }

  predicate AreDigits(whole: string, dotted: bool, frac: string) {
    AllDigits(whole) && AllDigits(frac) && whole + frac != "" && (!dotted ==> frac == "")
  }

  /** The text writes a number with at most twenty digits, the dot being counted. */
  ghost predicate WritesNumber(s: string) {
    exists negative, whole, dotted, frac :: AreDigits(whole, dotted, frac) && s == Text(negative, whole, dotted, frac)
      && |whole| + |frac| + (if dotted then 1 else 0) <= 20
  }

  lemma DotOfBody(whole: string, dotted: bool, frac: string)
    requires AreDigits(whole, dotted, frac)
    ensures var body := BodyOf(whole, dotted, frac);
      && Dot(body) == |whole| && body[..|whole|] == whole && (dotted ==> body[|whole| + 1..] == frac)
      && |body| == |whole| + |frac| + (if dotted then 1 else 0)
  {
    DotOfDigits(whole, frac);
  }

  lemma CharsOfBody(whole: string, dotted: bool, frac: string)
    requires AreDigits(whole, dotted, frac)
    ensures var body := BodyOf(whole, dotted, frac);
      && body != "" && body[0] != '-'
      && forall i :: 0 <= i < |body| ==> body[i] == '.' || IsDigit(body[i])
  {
    var body := BodyOf(whole, dotted, frac);
    forall i | 0 <= i < |body| ensures body[i] == '.' || IsDigit(body[i]) {
      if i < |whole| {
        assert body[i] == whole[i];
      } else if i > |whole| {
        assert body[i] == frac[i - |whole| - 1];
      }
    }
  }

  /** Every writing of a number is read as that number, whatever its length. */
  lemma TextIsRead(negative: bool, whole: string, dotted: bool, frac: string)
    requires AreDigits(whole, dotted, frac)
    ensures SetString(Text(negative, whole, dotted, frac))
         == Some(Rat(Signed(negative, Value(whole + frac)), Pow10(|frac|)))
  {
    CharsOfBody(whole, dotted, frac);
    SignOfParts(negative, BodyOf(whole, dotted, frac));
    DotOfBody(whole, dotted, frac);
  }

  lemma ShortTextIsValid(negative: bool, whole: string, dotted: bool, frac: string)
    requires AreDigits(whole, dotted, frac)
    ensures ValidAmountSimple(Text(negative, whole, dotted, frac)) <==>
      |whole| + |frac| + (if dotted then 1 else 0) <= 20
  {
    CharsOfBody(whole, dotted, frac);
    SignOfParts(negative, BodyOf(whole, dotted, frac));
  }

  /** What is read is the writing of a number. */
  lemma ReadIsText(s: string) returns (negative: bool, whole: string, dotted: bool, frac: string)
    requires SetString(s).Some?
    ensures AreDigits(whole, dotted, frac) && s == Text(negative, whole, dotted, frac)
  {
    var body := Unsigned(s);
    var i := Dot(body);
    negative, whole, dotted := Negative(s), body[..i], i < |body|;
    frac := if dotted then body[i + 1..] else "";
    SplitAtDot(body, i);
    SplitSign(s);
  }

  lemma SplitAtDot(body: string, i: nat)
    requires i <= |body| && (i < |body| ==> body[i] == '.')
    ensures body == BodyOf(body[..i], i < |body|, if i < |body| then body[i + 1..] else "")
  {
  }

  lemma SplitSign(s: string)
    ensures s == Sign(Negative(s)) + Unsigned(s)
  {
  }

  /** The texts that amounts and prices accept are the writings of numbers with at most twenty digits, and no others. */
  lemma AcceptedTexts(s: string)
    ensures ValidAmountSimple(s) && SetString(s).Some? <==> WritesNumber(s)
  {
    if SetString(s).Some? {
      var negative, whole, dotted, frac := ReadIsText(s);
      ShortTextIsValid(negative, whole, dotted, frac);
    }
    if WritesNumber(s) {
      var negative, whole, dotted, frac :| AreDigits(whole, dotted, frac) && s == Text(negative, whole, dotted, frac)
        && |whole| + |frac| + (if dotted then 1 else 0) <= 20;
      ShortTextIsValid(negative, whole, dotted, frac);
      TextIsRead(negative, whole, dotted, frac);
    }
  }

  /** Among texts of digits and dots, those with two dots and those without a digit are not read. */
  lemma UnreadTexts(s: string)
    requires forall i :: 0 <= i < |Unsigned(s)| ==> Unsigned(s)[i] == '.' || IsDigit(Unsigned(s)[i])
    ensures SetString(s).None? <==>
      || (forall i :: 0 <= i < |Unsigned(s)| ==> Unsigned(s)[i] == '.')
      || (exists i, j :: 0 <= i < j < |Unsigned(s)| && Unsigned(s)[i] == '.' == Unsigned(s)[j])
  {
    var body := Unsigned(s);
    var i := Dot(body);
    var whole, frac := body[..i], if i < |body| then body[i + 1..] else "";
    assert AllDigits(whole);
    if !AllDigits(frac) {
      var k :| 0 <= k < |frac| && !IsDigit(frac[k]);
      assert body[i + 1 + k] == frac[k];
    } else {
      forall k | 0 <= k < |body| && k != i ensures IsDigit(body[k]) {
        assert body[k] == if k < i then whole[k] else frac[k - i - 1];
      }
      if whole + frac != "" {
        assert IsDigit(body[if i > 0 then 0 else 1]);
      }
    }
  }

  lemma {:induction false} NoLeadingZero(n: nat)
    ensures Digits(n)[0] == '0' ==> Digits(n) == "0"
  {
    if n < 10 {
    } else {
      NoLeadingZero(n / 10);
      ValueOfDigits(n / 10);
      assert "0"[..0] == "";
    }
  }

  /** What is printed has exactly prec decimals, no needless zero in front, and a sign exactly if the number is below
      zero, even if it is rounded to zero. */
  lemma PrintedText(x: Rat, prec: nat) returns (whole: string, frac: string)
    requires prec >= 1
    ensures FloatString(x, prec) == Text(x.num < 0, whole, true, frac)
    ensures AllDigits(whole) && whole != "" && (whole[0] == '0' ==> whole == "0")
    ensures AllDigits(frac) && |frac| == prec
  {
    var t := Nearest(x, prec);
    whole, frac := Digits(Quot(t, Pow10(prec))), Padded(Rem(t, Pow10(prec)), prec);
    ValueOfFixed(t, prec);
    NoLeadingZero(Quot(t, Pow10(prec)));
  }
}
