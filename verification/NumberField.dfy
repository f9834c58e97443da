/** Number and amount fields and the regular expression that guards them. */
module NumberField {
  import opened Wrappers
  import opened Decimal
  import opened TokenAmount
  import P = Payload

  // ----- regular expressions matched against a whole text

  datatype Regex =
    | OneOf(chars: set<char>)
    | Then(first: Regex, second: Regex)
    | Or(left: Regex, right: Regex)
    | Maybe(inner: Regex)
    | Many1(inner: Regex)

  predicate Matches(re: Regex, s: string)
    decreases re, |s|
  {
    match re
    case OneOf(chars) => |s| == 1 && s[0] in chars
    case Then(first, second) => exists i :: 0 <= i <= |s| && Matches(first, s[..i]) && Matches(second, s[i..])
    case Or(left, right) => Matches(left, s) || Matches(right, s)
    case Maybe(inner) => s == "" || Matches(inner, s)
    case Many1(inner) =>
      || Matches(inner, s)
      || exists i :: 0 < i <= |s| && Matches(inner, s[..i]) && Matches(re, s[i..])
  }

  const SIGN := OneOf({'-', '+'})
  const DIGIT := OneOf({'0', '1', '2', '3', '4', '5', '6', '7', '8', '9'})
  const POINT := OneOf({'.'})
  const DECIMAL := Then(Maybe(SIGN), Then(Many1(DIGIT), Maybe(Then(POINT, Many1(DIGIT)))))
  const ZERO := Then(Maybe(SIGN), OneOf({'0'}))

  /** `^([-+]?[0-9]+(\.[0-9]+)?|[-+]?0)$` */
  const SIGNED_PROPER_NUMBER := Or(DECIMAL, ZERO)

  // ----- the same language by position

  predicate IsDigits(s: string) {
    s != "" && AllDigits(s)
  }

  predicate IsUnsignedNumber(s: string) {
    var i := PointIndex(s);
    IsDigits(s[..i]) && (i < |s| ==> IsDigits(s[i + 1..]))
  }

  /** Optional sign, digits, and possibly a point with more digits. */
  predicate IsNumber(s: string) {
    if s != "" && (s[0] == '-' || s[0] == '+') then IsUnsignedNumber(s[1..]) else IsUnsignedNumber(s)
  }

  lemma MatchesDigit(s: string)
    ensures Matches(DIGIT, s) <==> |s| == 1 && IsDigit(s[0])
  {
  }

  lemma {:induction false} MatchesDigits(s: string)
    ensures Matches(Many1(DIGIT), s) <==> IsDigits(s)
    decreases |s|
  {
    MatchesDigit(s);
    if Matches(Many1(DIGIT), s) && !Matches(DIGIT, s) {
      var i :| 0 < i <= |s| && Matches(DIGIT, s[..i]) && Matches(Many1(DIGIT), s[i..]);
      MatchesDigit(s[..i]);
      MatchesDigits(s[i..]);
      assert s == s[..i] + s[i..];
    }
    if IsDigits(s) && |s| > 1 {
      MatchesDigit(s[..1]);
      MatchesDigits(s[1..]);
      assert Matches(DIGIT, s[..1]) && Matches(Many1(DIGIT), s[1..]);
    }
  }

  lemma MatchesFraction(s: string)
    ensures Matches(Then(POINT, Many1(DIGIT)), s) <==> s != "" && s[0] == '.' && IsDigits(s[1..])
  {
    if Matches(Then(POINT, Many1(DIGIT)), s) {
      var i :| 0 <= i <= |s| && Matches(POINT, s[..i]) && Matches(Many1(DIGIT), s[i..]);
      MatchesDigits(s[i..]);
    }
    if s != "" && s[0] == '.' && IsDigits(s[1..]) {
      MatchesDigits(s[1..]);
      assert Matches(POINT, s[..1]) && Matches(Many1(DIGIT), s[1..]);
    }
  }

  const UNSIGNED := Then(Many1(DIGIT), Maybe(Then(POINT, Many1(DIGIT))))

  lemma MatchesUnsigned(s: string)
    ensures Matches(UNSIGNED, s) <==> IsUnsignedNumber(s)
  {
    var fraction := Then(POINT, Many1(DIGIT));
    if Matches(UNSIGNED, s) {
      var i :| 0 <= i <= |s| && Matches(Many1(DIGIT), s[..i]) && Matches(Maybe(fraction), s[i..]);
      MatchesDigits(s[..i]);
      MatchesFraction(s[i..]);
      SplitAtPoint(s, i);
    }
    if IsUnsignedNumber(s) {
      var i := PointIndex(s);
      MatchesDigits(s[..i]);
      MatchesFraction(s[i..]);
      assert i < |s| ==> s[i..][1..] == s[i + 1..];
      assert Matches(Many1(DIGIT), s[..i]) && Matches(Maybe(fraction), s[i..]);
    }
  }

  lemma SplitAtPoint(s: string, i: nat)
    requires i <= |s| && IsDigits(s[..i])
    requires s[i..] == "" || (s[i..][0] == '.' && IsDigits(s[i..][1..]))
    ensures IsUnsignedNumber(s)
  {
    if i == |s| {
      assert s[..i] == s;
      PointAfterDigits(s, "");
    } else {
      var f := s[i + 1..];
      assert s[i..][1..] == f;
      assert s == s[..i] + ['.'] + f;
      PointAfterDigits(s[..i], f);
    }
  }

  lemma MatchesMaybeSign(s: string)
    ensures Matches(Maybe(SIGN), s) <==> s == "" || (|s| == 1 && (s[0] == '-' || s[0] == '+'))
  {
  }

  lemma MatchesSigned(inner: Regex, s: string)
    requires forall t :: Matches(inner, t) ==> t != "" && t[0] != '-' && t[0] != '+'
    ensures Matches(Then(Maybe(SIGN), inner), s) <==>
            if s != "" && (s[0] == '-' || s[0] == '+') then Matches(inner, s[1..]) else Matches(inner, s)
  {
    var signed := s != "" && (s[0] == '-' || s[0] == '+');
    if Matches(Then(Maybe(SIGN), inner), s) {
      var i :| 0 <= i <= |s| && Matches(Maybe(SIGN), s[..i]) && Matches(inner, s[i..]);
      MatchesMaybeSign(s[..i]);
      assert i == 0 || i == 1;
      if i == 0 {
        assert s[..0] == "" && s[0..] == s;
      } else {
        assert Matches(SIGN, s[..1]);
      }
    }
    if signed && Matches(inner, s[1..]) {
      assert Matches(SIGN, s[..1]);
      assert Matches(Maybe(SIGN), s[..1]) && Matches(inner, s[1..]);
    }
    if !signed && Matches(inner, s) {
      assert s[..0] == "" && s[0..] == s;
      assert Matches(Maybe(SIGN), s[..0]) && Matches(inner, s[0..]);
    }
  }

  lemma MatchesDecimal(s: string)
    ensures Matches(DECIMAL, s) <==> IsNumber(s)
  {
    forall t | Matches(UNSIGNED, t) ensures t != "" && t[0] != '-' && t[0] != '+' {
      MatchesUnsigned(t);
      assert IsDigit(t[..PointIndex(t)][0]);
    }
    MatchesSigned(UNSIGNED, s);
    if s != "" {
      MatchesUnsigned(s[1..]);
    }
    MatchesUnsigned(s);
  }

  /** The alternative for a lone zero accepts nothing that the first one does not. */
  lemma ZeroAlternativeIsRedundant(s: string)
    requires Matches(ZERO, s)
    ensures Matches(DECIMAL, s)
  {
    MatchesSigned(OneOf({'0'}), s);
    MatchesDecimal(s);
    var t := if s != "" && (s[0] == '-' || s[0] == '+') then s[1..] else s;
    assert t == "0";
    PointAfterDigits(t, "");
  }

  /** The regular expression accepts exactly the numbers. */
  lemma RegexIsNumber(s: string)
    ensures Matches(SIGNED_PROPER_NUMBER, s) <==> IsNumber(s)
  {
    MatchesDecimal(s);
    if Matches(ZERO, s) {
      ZeroAlternativeIsRedundant(s);
    }
  }

  // ----- field builders

  datatype FieldError = EmptyField | InvalidNumberField(number: string)

  function ValidateNumberString(number: string): Result<bool, FieldError> {
    if number == "" then Err(EmptyField)
    else if Matches(SIGNED_PROPER_NUMBER, number) then Ok(true)
    else Err(InvalidNumberField(number))
  }

  function CreateNumberField(fieldLabel: string, number: string, unit: string): Result<P.AnnotatedField, FieldError> {
    var _ :- ValidateNumberString(number);
    var fallbackText := if unit == "" then number else number + " " + unit;
    Ok(P.AnnotatedField(P.Number(P.Common(fallbackText, fieldLabel), number), None, None))
  }

  function CreateAmountField(fieldLabel: string, amount: string, abbreviation: string)
    : Result<P.AnnotatedField, FieldError>
  {
    var _ :- ValidateNumberString(amount);
    if abbreviation == "" then Err(EmptyField)
    else
      var body := P.AmountBody(amount, Some(abbreviation));
      Ok(P.AnnotatedField(P.AmountV2(P.Common(amount + " " + abbreviation, fieldLabel), body), None, None))
  }

  lemma ValidationAcceptsNumbers(s: string)
    ensures ValidateNumberString(s) == if s == "" then Err(EmptyField)
                                       else if IsNumber(s) then Ok(true)
                                       else Err(InvalidNumberField(s))
  {
    RegexIsNumber(s);
  }

  /** Digits are accepted whatever they start with, although the comment rules out leading zeros. */
  lemma LeadingZerosAreAccepted(zeros: nat, s: string)
    requires IsDigits(s)
    ensures ValidateNumberString(Zeros(zeros) + s) == Ok(true)
  {
    PointAfterDigits(Zeros(zeros) + s, "");
    assert IsDigit((Zeros(zeros) + s)[0]);
    ValidationAcceptsNumbers(Zeros(zeros) + s);
  }

  /** Every canonical decimal is accepted. */
  lemma CanonicalDecimalIsNumber(s: string, decimals: nat)
    requires IsCanonicalDecimal(s, decimals)
    ensures ValidateNumberString(s) == Ok(true)
  {
    ValidationAcceptsNumbers(s);
    assert IsDigit(s[..PointIndex(s)][0]);
  }

  /** The text makes a number field with any unit and an amount field with any symbol. */
  predicate MakesFields(fieldLabel: string, s: string, unit: string) {
    && CreateNumberField(fieldLabel, s, unit).Ok?
    && (CreateAmountField(fieldLabel, s, unit).Ok? <==> unit != "")
  }

  lemma AcceptedMakesFields(fieldLabel: string, s: string, unit: string)
    requires ValidateNumberString(s) == Ok(true)
    ensures MakesFields(fieldLabel, s, unit)
  {
  }

  /** Whatever text `format_token_amount` returns, in either build, makes both fields. */
  lemma TokenAmountMakesFields(
    fieldLabel: string, amount: u64, decimals: u8, overflowChecks: bool, s: string, unit: string)
    requires FormatTokenAmount(amount, decimals, overflowChecks) == Returned(s)
    ensures MakesFields(fieldLabel, s, unit)
  {
    DivisorBound(amount, decimals, overflowChecks);
    var d := Divisor(decimals, overflowChecks).value;
    FormatWithValue(amount, d, decimals, Scaled(Whole(amount, d), Pow10(decimals), Fractional(amount, d)));
    CanonicalDecimalIsNumber(s, decimals);
    AcceptedMakesFields(fieldLabel, s, unit);
  }

  /** Every text of the formatters and every unsigned integer makes both fields. */
  lemma FormattedAmountsAreAccepted(fieldLabel: string, unit: string)
    ensures forall amount: u64, decimals: u8, overflowChecks: bool, s: string ::
              FormatTokenAmount(amount, decimals, overflowChecks) == Returned(s) ==> MakesFields(fieldLabel, s, unit)
    ensures forall wei: nat :: MakesFields(fieldLabel, FormatEther(wei), unit)
    ensures forall wei: nat :: MakesFields(fieldLabel, FormatGwei(wei), unit)
    ensures forall n: nat :: MakesFields(fieldLabel, Show(n), unit)
  {
    forall amount: u64, decimals: u8, overflowChecks: bool, s: string |
      FormatTokenAmount(amount, decimals, overflowChecks) == Returned(s)
      ensures MakesFields(fieldLabel, s, unit)
    {
      TokenAmountMakesFields(fieldLabel, amount, decimals, overflowChecks, s, unit);
    }
    forall wei: nat
      ensures MakesFields(fieldLabel, FormatEther(wei), unit) && MakesFields(fieldLabel, FormatGwei(wei), unit)
    {
      EtherIsAccepted(wei);
      AcceptedMakesFields(fieldLabel, FormatEther(wei), unit);
      AcceptedMakesFields(fieldLabel, FormatGwei(wei), unit);
    }
    forall n: nat ensures MakesFields(fieldLabel, Show(n), unit) {
      IntegerIsAccepted(n);
      AcceptedMakesFields(fieldLabel, Show(n), unit);
    }
  }

  lemma IntegerIsAccepted(n: nat)
    ensures ValidateNumberString(Show(n)) == Ok(true)
  {
    assert Zeros(0) + Show(n) == Show(n);
    LeadingZerosAreAccepted(0, Show(n));
  }

  lemma EtherIsAccepted(amount: nat)
    ensures ValidateNumberString(FormatEther(amount)) == Ok(true)
    ensures ValidateNumberString(FormatGwei(amount)) == Ok(true)
  {
    UnitsAccepted(amount, 18);
    UnitsAccepted(amount, 9);
  }

  lemma UnitsAccepted(amount: nat, units: nat)
    requires units > 0
    ensures ValidateNumberString(TrimTrailingZeros(FormatUnits(amount, units))) == Ok(true)
  {
    TrimmedUnits(amount, units);
    FormatIsExact(amount, units);
    CanonicalDecimalIsNumber(FormatWith(amount, Pow10(units), units), units);
  }

  /** A number field is built exactly from a number, and shows it, its unit and its label. */
  lemma NumberFieldShowsItsParts(fieldLabel: string, number: string, unit: string)
    ensures CreateNumberField(fieldLabel, number, unit).Ok? <==> IsNumber(number)
    ensures CreateNumberField(fieldLabel, number, unit).Err? ==>
            CreateNumberField(fieldLabel, number, unit).error
            == if number == "" then EmptyField else InvalidNumberField(number)
    ensures CreateNumberField(fieldLabel, number, unit).Ok? ==>
            var a := CreateNumberField(fieldLabel, number, unit).value;
            && a.staticAnnotation.None? && a.dynamicAnnotation.None?
            && a.field.Number? && a.field.number == number && a.field.common.fieldLabel == fieldLabel
            && |a.field.common.fallbackText| >= |number| && a.field.common.fallbackText[..|number|] == number
            && a.field.common.fallbackText[|number|..] == (if unit == "" then "" else " " + unit)
  {
    ValidationAcceptsNumbers(number);
    if number == "" {
      assert !IsNumber(number);
    }
    assert number + " " + unit == number + (" " + unit);
  }

  /** An amount field is built exactly from a number and a symbol, and shows both. */
  lemma AmountFieldShowsItsParts(fieldLabel: string, amount: string, symbol: string)
    ensures CreateAmountField(fieldLabel, amount, symbol).Ok? <==> IsNumber(amount) && symbol != ""
    ensures CreateAmountField(fieldLabel, amount, symbol).Err? ==>
            CreateAmountField(fieldLabel, amount, symbol).error
            == if amount == "" || IsNumber(amount) then EmptyField else InvalidNumberField(amount)
    ensures CreateAmountField(fieldLabel, amount, symbol).Ok? ==>
            var f := CreateAmountField(fieldLabel, amount, symbol).value.field;
            f.AmountV2? && f.amountV2 == P.AmountBody(amount, Some(symbol))
            && f.common == P.Common(amount + " " + symbol, fieldLabel)
  {
    ValidationAcceptsNumbers(amount);
    if amount == "" {
      assert !IsNumber(amount);
    }
  }
}
