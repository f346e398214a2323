/** Canonical money text: what the adapter accepts as an amount, and the text it
    puts into evidence hashes. */
module MoneyText {
  import opened Sums

  const MAX_SCALE := 6

  /** A non-negative decimal: its digits as one number, and how many of them are
      behind the point. 12.50 and 12.5 are different decimals of one value. */
  datatype Decimal = Decimal(coefficient: nat, scale: nat)

  // ------------------------------------------------------------------ digits

  predicate IsDigit(c: char) {
    '0' <= c <= '9'
  }

  function DigitChar(d: nat): (c: char)
    requires d < 10
    ensures IsDigit(c)
  {
    '0' + d as char
  }

  function DigitValue(c: char): (d: nat)
    requires IsDigit(c)
    ensures d < 10
  {
    c as int - '0' as int
  }

  predicate AllDigits(text: string) {
    forall k :: 0 <= k < |text| ==> IsDigit(text[k])
  }

  /** The digits appended to a number. */
  function Appended(n: nat, digits: string): nat
    requires AllDigits(digits)
  {
    if digits == [] then n
    else Appended(n, digits[..|digits| - 1]) * 10 + DigitValue(digits[|digits| - 1])
  }

  /** A number without leading zeros. */
  function Digits(n: nat): (text: string)
    ensures text != [] && AllDigits(text)
    ensures text[0] == '0' ==> text == "0"
  {
    if n < 10 then [DigitChar(n)] else Digits(n / 10) + [DigitChar(n % 10)]
  }

  // ---------------------------------------------------------------- printing

  /** The digits before the point, as a number. */
  function Whole(coefficient: nat, scale: nat): nat {
    if scale == 0 then coefficient else Whole(coefficient / 10, scale - 1)
  }

  /** The digits behind the point, zeros included. */
  function Fraction(coefficient: nat, scale: nat): (text: string)
    ensures |text| == scale && AllDigits(text)
  {
    if scale == 0 then [] else Fraction(coefficient / 10, scale - 1) + [DigitChar(coefficient % 10)]
  }

  /** format(amount, "f"): every digit of the scale is shown. */
  function FixedPoint(d: Decimal): string {
    Digits(Whole(d.coefficient, d.scale)) +
    if d.scale == 0 then "" else "." + Fraction(d.coefficient, d.scale)
  }

  function RightStripped(text: string, c: char): string {
    if text != [] && text[|text| - 1] == c then RightStripped(text[..|text| - 1], c) else text
  }

  /** The canonical text of an amount: no zeros at the end of a fraction, and no
      point without a fraction. */
  function DecimalText(d: Decimal): string {
    var text := FixedPoint(d);
    if '.' in text then RightStripped(RightStripped(text, '0'), '.') else text
  }

  // ----------------------------------------------------------------- parsing

  function PointAt(text: string): (k: nat)
    ensures k <= |text| && '.' !in text[..k] && (k < |text| ==> text[k] == '.')
  {
    if text == [] || text[0] == '.' then 0
    else
      var k := PointAt(text[1..]);
      assert text[..k + 1] == [text[0]] + text[1..][..k];
      k + 1
  }

  predicate IsWhole(text: string) {
    text != [] && AllDigits(text) && (text[0] == '0' ==> |text| == 1)
  }

  /** The accepted grammar: a whole number without leading zeros, and at most six
      digits behind a point. */
  predicate Accepted(text: string) {
    var k := PointAt(text);
    && IsWhole(text[..k])
    && (k < |text| ==> 1 <= |text| - k - 1 <= MAX_SCALE && AllDigits(text[k + 1..]))
  }

  /** The digits behind the point of an accepted text. */
  function FractionOf(text: string): (fraction: string)
    requires Accepted(text)
    ensures AllDigits(fraction) && |fraction| <= MAX_SCALE
  {
    var k := PointAt(text);
    if k < |text| then text[k + 1..] else ""
  }

  function ParseAmount(text: string): Option<Decimal> {
    if !Accepted(text) then None
    else
      var fraction := FractionOf(text);
      Some(Decimal(Appended(Appended(0, text[..PointAt(text)]), fraction), |fraction|))
  }

  // ------------------------------------------------------------------ values

  function Scaled(n: nat, zeros: nat): nat {
    if zeros == 0 then n else Scaled(n, zeros - 1) * 10
  }

  /** The value of an amount in millionths. */
  function Micros(d: Decimal): nat
    requires d.scale <= MAX_SCALE
  {
    Scaled(d.coefficient, MAX_SCALE - d.scale)
  }

  function Zeros(n: nat): (text: string)
    ensures |text| == n && AllDigits(text)
  {
    if n == 0 then [] else Zeros(n - 1) + ['0']
  }

  /** What an accepted text denotes in millionths: fill its fraction up to six
      digits and read all digits as one number. */
  function Denoted(text: string): nat
    requires Accepted(text)
  {
    var fraction := FractionOf(text);
    Appended(0, (text[..PointAt(text)] + fraction) + Zeros(MAX_SCALE - |fraction|))
  }

  // ------------------------------------------------------------ normal forms

  /** Drop the zeros at the end of the fraction. */
  function Normal(d: Decimal): (n: Decimal)
    ensures n.scale <= d.scale && (n.scale > 0 ==> n.coefficient % 10 != 0)
    decreases d.scale
  {
    if d.scale > 0 && d.coefficient % 10 == 0 then Normal(Decimal(d.coefficient / 10, d.scale - 1)) else d
  }

  lemma {:induction false} ScaledTimesTen(n: nat, zeros: nat)
    ensures Scaled(n * 10, zeros) == Scaled(n, zeros) * 10
  {
    if zeros > 0 {
      ScaledTimesTen(n, zeros - 1);
    }
  }

  lemma {:induction false} NormalKeepsValue(d: Decimal)
    requires d.scale <= MAX_SCALE
    ensures Micros(Normal(d)) == Micros(d)
    decreases d.scale
  {
    if d.scale > 0 && d.coefficient % 10 == 0 {
      NormalKeepsValue(Decimal(d.coefficient / 10, d.scale - 1));
      ScaledTimesTen(d.coefficient / 10, MAX_SCALE - d.scale);
    }
  }

  lemma {:induction false} ScaledIsInjective(m: nat, n: nat, more: nat, zeros: nat)
    requires Scaled(m, zeros + more) == Scaled(n, zeros)
    ensures Scaled(m, more) == n
  {
    if zeros > 0 {
      ScaledIsInjective(m, n, more, zeros - 1);
    }
  }

  lemma TenTimes(n: nat)
    ensures n * 10 % 10 == 0
  {
  }

  lemma NormalFormsAreUnique(d: Decimal, e: Decimal)
    requires d.scale <= e.scale <= MAX_SCALE && Micros(d) == Micros(e)
    requires e.scale > 0 ==> e.coefficient % 10 != 0
    ensures d == e
  {
    var more := e.scale - d.scale;
    ScaledIsInjective(d.coefficient, e.coefficient, more, MAX_SCALE - e.scale);
    if more > 0 {
      TenTimes(Scaled(d.coefficient, more - 1));
    }
  }

  // ---------------------------------------------------------- print and parse

  lemma {:induction false} WholeAndFractionRebuild(c: nat, s: nat)
    ensures Appended(Whole(c, s), Fraction(c, s)) == c
  {
    if s > 0 {
      WholeAndFractionRebuild(c / 10, s - 1);
      assert Fraction(c, s)[..s - 1] == Fraction(c / 10, s - 1);
    }
  }

  lemma {:induction false} DigitsRebuild(n: nat)
    ensures Appended(0, Digits(n)) == n
  {
    if n >= 10 {
      DigitsRebuild(n / 10);
      assert Digits(n)[..|Digits(n)| - 1] == Digits(n / 10);
    } else {
      assert Digits(n)[..0] == [];
    }
  }

  lemma {:induction false} PointIsFound(whole: string, rest: string)
    requires AllDigits(whole) && (rest == [] || rest[0] == '.')
    ensures PointAt(whole + rest) == |whole|
  {
    if whole == [] {
      assert whole + rest == rest;
    } else {
      assert (whole + rest)[1..] == whole[1..] + rest;
      PointIsFound(whole[1..], rest);
    }
  }

  lemma NoPointInDigits(text: string)
    requires AllDigits(text)
    ensures '.' !in text
  {
  }

  /** Fixed-point text is accepted and parses back to the very decimal. */
  lemma FixedPointParses(d: Decimal)
    requires d.scale <= MAX_SCALE
    ensures ParseAmount(FixedPoint(d)) == Some(d)
  {
    var whole, fraction := Digits(Whole(d.coefficient, d.scale)), Fraction(d.coefficient, d.scale);
    var rest := if d.scale == 0 then "" else "." + fraction;
    var text := FixedPoint(d);
    PointIsFound(whole, rest);
    assert text[..|whole|] == whole;
    DigitsRebuild(Whole(d.coefficient, d.scale));
    WholeAndFractionRebuild(d.coefficient, d.scale);
    assert d.scale > 0 ==> text[|whole| + 1..] == fraction;
  }

  lemma {:induction false} AppendedSplits(n: nat, fraction: string)
    requires AllDigits(fraction)
    ensures Whole(Appended(n, fraction), |fraction|) == n
    ensures Fraction(Appended(n, fraction), |fraction|) == fraction
  {
    if fraction != [] {
      var init := fraction[..|fraction| - 1];
      AppendedSplits(n, init);
      assert fraction == init + [fraction[|fraction| - 1]];
    }
  }

  lemma {:induction false} WholeIsItsDigits(whole: string)
    requires IsWhole(whole)
    ensures Digits(Appended(0, whole)) == whole
  {
    var init := whole[..|whole| - 1];
    assert whole == init + [whole[|whole| - 1]];
    if init != [] {
      WholeIsItsDigits(init);
      assert Digits(0) == "0" != init;
    }
  }

  lemma PrintedParts(whole: string, fraction: string)
    requires IsWhole(whole) && AllDigits(fraction)
    ensures FixedPoint(Decimal(Appended(Appended(0, whole), fraction), |fraction|)) ==
            whole + if fraction == [] then "" else "." + fraction
  {
    AppendedSplits(Appended(0, whole), fraction);
    WholeIsItsDigits(whole);
  }

  /** An accepted text is the fixed-point text of what it parses to. */
  lemma ParsedPrintsBack(text: string)
    requires Accepted(text)
    ensures FixedPoint(ParseAmount(text).value) == text
  {
    var k := PointAt(text);
    PrintedParts(text[..k], FractionOf(text));
    assert k < |text| ==> text == text[..k] + ("." + text[k + 1..]);
  }

  /** The accepted texts are exactly the fixed-point texts of decimals with at most six
      digits behind the point. */
  lemma AcceptedExactlyWhen(text: string)
    ensures Accepted(text) <==> exists d: Decimal :: d.scale <= MAX_SCALE && text == FixedPoint(d)
  {
    if Accepted(text) {
      ParsedPrintsBack(text);
    }
    if d: Decimal :| d.scale <= MAX_SCALE && text == FixedPoint(d) {
      FixedPointParses(d);
    }
  }

  lemma {:induction false} StripFraction(whole: string, c: nat, s: nat)
    requires AllDigits(whole) && whole != []
    ensures var n := Normal(Decimal(c, s));
            RightStripped(whole + "." + Fraction(c, s), '0') == whole + "." + Fraction(n.coefficient, n.scale)
    decreases s
  {
    var text := whole + "." + Fraction(c, s);
    if s > 0 {
      assert text[..|text| - 1] == whole + "." + Fraction(c / 10, s - 1);
      if c % 10 == 0 {
        StripFraction(whole, c / 10, s - 1);
      }
    }
  }

  lemma {:induction false} NormalKeepsWhole(d: Decimal)
    ensures Whole(Normal(d).coefficient, Normal(d).scale) == Whole(d.coefficient, d.scale)
    decreases d.scale
  {
    if d.scale > 0 && d.coefficient % 10 == 0 {
      NormalKeepsWhole(Decimal(d.coefficient / 10, d.scale - 1));
    }
  }

  lemma StripPoint(whole: string, fraction: string)
    requires AllDigits(whole) && AllDigits(fraction) && whole != []
    ensures RightStripped(whole + "." + fraction, '.') == if fraction == "" then whole else whole + "." + fraction
  {
    var text := whole + "." + fraction;
    if fraction == "" {
      assert text[..|text| - 1] == whole;
    }
  }

  /** Stripping is normalising: the canonical text is the fixed-point text of the
      normal form. */
  lemma TextIsOfTheNormalForm(d: Decimal)
    ensures DecimalText(d) == FixedPoint(Normal(d))
  {
    var whole, n := Digits(Whole(d.coefficient, d.scale)), Normal(d);
    NormalKeepsWhole(d);
    NoPointInDigits(whole);
    if d.scale > 0 {
      var text := FixedPoint(d);
      assert text == whole + "." + Fraction(d.coefficient, d.scale);
      assert text[|whole|] == '.';
      StripFraction(whole, d.coefficient, d.scale);
      StripPoint(whole, Fraction(n.coefficient, n.scale));
    }
  }

  // ------------------------------------------------------------ main results

  /** Parsing a printed amount gives its value back, and every printed amount is
      accepted. */
  lemma PrintedAmountsParseBack(d: Decimal)
    requires d.scale <= MAX_SCALE
    ensures Accepted(DecimalText(d)) && ParseAmount(DecimalText(d)) == Some(Normal(d))
    ensures Micros(ParseAmount(DecimalText(d)).value) == Micros(d)
  {
    TextIsOfTheNormalForm(d);
    FixedPointParses(Normal(d));
    NormalKeepsValue(d);
  }

  /** Two amounts print alike exactly when they are worth the same. */
  lemma PrintAlikeExactlyWhenEqual(d: Decimal, e: Decimal)
    requires d.scale <= MAX_SCALE && e.scale <= MAX_SCALE
    ensures DecimalText(d) == DecimalText(e) <==> Micros(d) == Micros(e)
  {
    PrintedAmountsParseBack(d);
    PrintedAmountsParseBack(e);
    if Micros(d) == Micros(e) {
      var m, n := Normal(d), Normal(e);
      if m.scale <= n.scale {
        NormalFormsAreUnique(m, n);
      } else {
        NormalFormsAreUnique(n, m);
      }
      TextIsOfTheNormalForm(d);
      TextIsOfTheNormalForm(e);
    }
  }

  lemma {:induction false} AppendedInTurn(n: nat, a: string, b: string)
    requires AllDigits(a) && AllDigits(b)
    ensures AllDigits(a + b) && Appended(n, a + b) == Appended(Appended(n, a), b)
  {
    if b == [] {
      assert a + b == a;
    } else {
      AppendedInTurn(n, a, b[..|b| - 1]);
      assert (a + b)[..|a + b| - 1] == a + b[..|b| - 1];
    }
  }

  lemma {:induction false} AppendedZeros(n: nat, k: nat)
    ensures Appended(n, Zeros(k)) == Scaled(n, k)
  {
    if k > 0 {
      AppendedZeros(n, k - 1);
      assert Zeros(k)[..k - 1] == Zeros(k - 1);
    }
  }

  lemma ZerosScale(digits: string, k: nat)
    requires AllDigits(digits)
    ensures AllDigits(digits + Zeros(k)) && Appended(0, digits + Zeros(k)) == Scaled(Appended(0, digits), k)
  {
    AppendedInTurn(0, digits, Zeros(k));
    AppendedZeros(Appended(0, digits), k);
  }

  lemma PaddingScales(whole: string, fraction: string)
    requires AllDigits(whole) && AllDigits(fraction) && |fraction| <= MAX_SCALE
    ensures var padded := (whole + fraction) + Zeros(MAX_SCALE - |fraction|);
            && AllDigits(padded)
            && Appended(0, padded) == Scaled(Appended(Appended(0, whole), fraction), MAX_SCALE - |fraction|)
  {
    AppendedInTurn(0, whole, fraction);
    ZerosScale(whole + fraction, MAX_SCALE - |fraction|);
  }

  lemma ParsedIsDenoted(text: string)
    requires Accepted(text)
    ensures Micros(ParseAmount(text).value) == Denoted(text)
  {
    PaddingScales(text[..PointAt(text)], FractionOf(text));
  }

  /** Two accepted texts get the same canonical text exactly when they denote the
      same number, so evidence hashes ignore trailing zeros and nothing else. */
  lemma CanonicalTextIsTheNumber(t: string, u: string)
    requires Accepted(t) && Accepted(u)
    ensures DecimalText(ParseAmount(t).value) == DecimalText(ParseAmount(u).value) <==> Denoted(t) == Denoted(u)
  {
    ParsedIsDenoted(t);
    ParsedIsDenoted(u);
    PrintAlikeExactlyWhenEqual(ParseAmount(t).value, ParseAmount(u).value);
  }
}
