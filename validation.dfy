/**
 * `validateForm` of the payment form (PaymentForm.tsx): five independent
 * field rules, each giving at most one message, gathered into a freshly
 * built error record.
 */
module Validation {
  import opened Wrappers
  import opened JsString
  import opened JsNumber
  import opened PaymentTypes
  import opened FieldFormat

  const NameRequired := "Name on card is required"
  const NameTooShort := "Name must be at least 2 characters"
  const CardRequired := "Card number is required"
  const CardInvalid := "Invalid card number"
  const ExpiryRequired := "Expiry date is required"
  const ExpiryMalformed := "Invalid expiry date (MM/YY)"
  const MonthInvalid := "Invalid month"
  const CvvRequired := "CVV is required"
  const CvvInvalid := "CVV must be 3-4 digits"
  const AmountRequired := "Amount is required"
  const AmountNotPositive := "Amount must be greater than 0"

  // ---------------------------------------------------------------------
  // Cardholder name

  /**
   * The name rule: required when the trimmed name is empty, too short when
   * it has one character. Put in terms of the name itself: "required"
   * exactly when the name is all whitespace, and no error exactly when the
   * name holds two non-whitespace characters; every other name (one
   * non-whitespace character) is "too short".
   */
  function NameRule(name: string): (r: Option<string>)
    ensures r == Some(NameRequired) <==> forall i :: 0 <= i < |name| ==> IsWhitespace(name[i])
    ensures r.None? <==>
      exists i, j :: 0 <= i < j < |name| && !IsWhitespace(name[i]) && !IsWhitespace(name[j])
    ensures r.None? || r == Some(NameRequired) || r == Some(NameTooShort)
  {
    TrimEmpty(name);
    TrimAtLeastTwo(name);
    var trimmed := Trim(name);
    if |trimmed| == 0 then Some(NameRequired)
    else if |trimmed| < 2 then Some(NameTooShort)
    else None
  }

  // ---------------------------------------------------------------------
  // Card number

  /**
   * The card-number rule: with whitespace removed, required when nothing is
   * left, otherwise a range check on the length (13 to 19 characters). There
   * is no checksum. Every other failure is "invalid".
   */
  function CardNumberRule(card: string): (r: Option<string>)
    ensures r == Some(CardRequired) <==> forall i :: 0 <= i < |card| ==> IsWhitespace(card[i])
    ensures r.None? <==> 13 <= |Filter(IsNonWhitespace, card)| <= 19
    ensures r.None? || r == Some(CardRequired) || r == Some(CardInvalid)
  {
    FilterEmpty(IsNonWhitespace, card);
    var cardDigits := Filter(IsNonWhitespace, card);
    if |cardDigits| == 0 then Some(CardRequired)
    else if |cardDigits| < 13 || |cardDigits| > 19 then Some(CardInvalid)
    else None
  }

  /** A formatted card number passes exactly when at least thirteen digits were typed. */
  lemma FormattedCardNumberRule(value: string)
    ensures CardNumberRule(FormatCardNumber(value)).None? <==> |Digits(value)| >= 13
    ensures CardNumberRule(FormatCardNumber(value)) == Some(CardRequired) <==> Digits(value) == []
  {
    var c := Digits(value);
    FormatCardNumberStripped(value);
    FilterEmpty(IsNonWhitespace, FormatCardNumber(value));
  }

  // ---------------------------------------------------------------------
  // Expiry date

  /** The month check: NaN compares false both ways, so a month that does not parse passes. */
  predicate MonthAccepted(month: string) {
    match ParseInt(month)
    case None => true
    case Some(m) => 1 <= m <= 12
  }

  /**
   * The expiry rule: required when empty; malformed unless it splits on `/`
   * into exactly two 2-character parts; otherwise the first part parsed as an
   * integer must lie in 1..12. The year is never checked. The rule reports
   * one of its three messages or none, and "required" exactly for the empty
   * text.
   */
  function ExpiryRule(expiry: string): (r: Option<string>)
    ensures r == Some(ExpiryRequired) <==> expiry == []
    ensures r.None? || r == Some(ExpiryRequired) || r == Some(ExpiryMalformed) || r == Some(MonthInvalid)
  {
    var parts := Split(expiry, '/');
    if expiry == [] then Some(ExpiryRequired)
    else if |parts| != 2 || |parts[0]| != 2 || |parts[1]| != 2 then Some(ExpiryMalformed)
    else match ParseInt(parts[0])
      case None => None
      case Some(month) => if month < 1 || month > 12 then Some(MonthInvalid) else None
  }

  /**
   * The expiry rule on the text itself: "required" exactly for the empty
   * string, no error exactly for five characters with the only `/` in the
   * middle and an accepted month in front of it, and "Invalid month" exactly
   * for that layout with a month out of range; every other non-empty text is
   * malformed.
   */
  lemma ExpiryRuleShape(expiry: string)
    ensures ExpiryRule(expiry) == Some(ExpiryRequired) <==> expiry == []
    ensures ExpiryRule(expiry).None? <==>
      && |expiry| == 5 && expiry[2] == '/'
      && '/' !in expiry[..2] && '/' !in expiry[3..]
      && MonthAccepted(expiry[..2])
    ensures ExpiryRule(expiry) == Some(MonthInvalid) <==>
      && |expiry| == 5 && expiry[2] == '/'
      && '/' !in expiry[..2] && '/' !in expiry[3..]
      && !MonthAccepted(expiry[..2])
  {
    var parts := Split(expiry, '/');
    SplitThenJoin(expiry, '/');
    if |parts| == 2 {
      assert expiry == parts[0] + "/" + parts[1];
      if |parts[0]| == 2 && |parts[1]| == 2 {
        assert expiry[..2] == parts[0] && expiry[3..] == parts[1];
      }
    }
    if |expiry| == 5 && expiry[2] == '/' && '/' !in expiry[..2] && '/' !in expiry[3..] {
      var pieces := [expiry[..2], expiry[3..]];
      assert Join(pieces, '/') == expiry;
      JoinThenSplit(pieces, '/');
    }
  }

  /**
   * A formatted expiry date passes exactly when four digits were typed and
   * the first two make a month from 1 to 12; it is "required" exactly when
   * no digit was typed.
   */
  lemma FormattedExpiryRule(value: string)
    ensures var c := Digits(value);
      ExpiryRule(FormatExpiryDate(value)).None? <==>
        |c| >= 4 && 1 <= 10 * DigitValue(c[0]) + DigitValue(c[1]) <= 12
    ensures ExpiryRule(FormatExpiryDate(value)) == Some(ExpiryRequired) <==> Digits(value) == []
  {
    var c := Digits(value);
    var r := FormatExpiryDate(value);
    FormatExpiryDateShape(value);
    ExpiryRuleShape(r);
    if |r| == 5 {
      assert r[..2] == c[..2];
      ParseIntTwoDigits(c[..2]);
    }
  }

  /** A month that does not parse slips through: `ab/cd` passes the expiry rule. */
  lemma ExpiryRuleAcceptsUnparsableMonth()
    ensures ExpiryRule("ab/cd") == None
  {
    ExpiryRuleShape("ab/cd");
    ParseIntNaN("ab");
    assert "ab/cd"[..2] == "ab" && "ab/cd"[3..] == "cd";
  }

  /**
   * On `MM/YY`-shaped text (two digits, `/`, two digits) the expiry rule is
   * only a range check on the month; the year is not looked at.
   */
  lemma ExpiryRuleOnDigits(expiry: string)
    requires |expiry| == 5 && expiry[2] == '/'
    requires AllDigits(expiry[..2]) && AllDigits(expiry[3..])
    ensures var month := 10 * DigitValue(expiry[0]) + DigitValue(expiry[1]);
      ExpiryRule(expiry) == if 1 <= month <= 12 then None else Some(MonthInvalid)
  {
    var pieces := [expiry[..2], expiry[3..]];
    assert Join(pieces, '/') == expiry;
    JoinThenSplit(pieces, '/');
    ParseIntTwoDigits(expiry[..2]);
  }

  /** Month `00` is rejected. */
  lemma ExpiryMonthZeroRejected()
    ensures ExpiryRule("00/25") == Some(MonthInvalid)
  {
    ExpiryRuleOnDigits("00/25");
  }

  /** Month `13` is rejected. */
  lemma ExpiryMonthThirteenRejected()
    ensures ExpiryRule("13/25") == Some(MonthInvalid)
  {
    ExpiryRuleOnDigits("13/25");
  }

  /** Month `12` is accepted. */
  lemma ExpiryDecemberAccepted()
    ensures ExpiryRule("12/29") == None
  {
    ExpiryRuleOnDigits("12/29");
  }

  /** `12/` (what the formatter shows after two digits) is malformed. */
  lemma ExpiryRuleIncompleteExample()
    ensures ExpiryRule("12/") == Some(ExpiryMalformed)
  {
    ExpiryRuleShape("12/");
  }

  // ---------------------------------------------------------------------
  // CVV

  /** The CVV rule: required when empty, otherwise three or four characters. */
  function CvvRule(cvv: string): (r: Option<string>)
    ensures r == Some(CvvRequired) <==> cvv == []
    ensures r.None? <==> 3 <= |cvv| <= 4
    ensures r == Some(CvvInvalid) <==> cvv != [] && (|cvv| < 3 || |cvv| > 4)
  {
    if cvv == [] then Some(CvvRequired)
    else if |cvv| < 3 || |cvv| > 4 then Some(CvvInvalid)
    else None
  }

  /** A filtered CVV passes exactly when at least three digits were typed. */
  lemma FilteredCvvRule(value: string)
    ensures CvvRule(FilterCvv(value)).None? <==> |Digits(value)| >= 3
    ensures CvvRule(FilterCvv(value)) == Some(CvvRequired) <==> Digits(value) == []
  {
    FilterCvvShape(value);
  }

  // ---------------------------------------------------------------------
  // Amount

  /**
   * The amount rule: required when the text is empty, otherwise an error
   * when `parseFloat` gives NaN or a value not above 0. On amount text that
   * means: no error exactly when the prefix `parseFloat` reads holds a
   * non-zero digit. NaN and a value not above 0 share one message.
   */
  function AmountRule(amount: string): (r: Option<string>)
    requires AmountText(amount)
    ensures r == Some(AmountRequired) <==> amount == []
    ensures r.None? || r == Some(AmountRequired) || r == Some(AmountNotPositive)
    ensures r.None? <==>
      exists i :: 0 <= i < |DecimalPrefix(amount)| && '1' <= DecimalPrefix(amount)[i] <= '9'
  {
    ParseFloatPositiveIff(amount);
    if amount == [] then Some(AmountRequired)
    else if ParseFloatIsNaN(amount) || !ParseFloatIsPositive(amount) then Some(AmountNotPositive)
    else None
  }

  /** `0` fails through the value check and `.` through the NaN check, with the same message. */
  lemma AmountRuleFailingExamples()
    ensures AmountRule("0") == Some(AmountNotPositive)
    ensures AmountRule(".") == Some(AmountNotPositive)
  {
    assert |DigitPrefix("0")| == 1;
    assert DecimalPrefix("0") == "0";
    assert DigitPrefix(".") == [];
    assert DigitPrefix("") == [];
    assert DecimalPrefix(".") == ".";
  }

  /** Amount text that starts with a non-zero digit passes, whatever follows. */
  lemma AmountLeadingNonZeroPasses(amount: string)
    requires AmountText(amount) && amount != [] && '1' <= amount[0] <= '9'
    ensures AmountRule(amount) == None
  {
    assert DigitPrefix(amount)[0] == amount[0];
    assert DecimalPrefix(amount)[0] == amount[0];
  }

  /** `10.00` passes. */
  lemma AmountTenPasses()
    ensures AmountRule("10.00") == None
  {
    AmountLeadingNonZeroPasses("10.00");
  }

  /** `1.2.3` passes too: `parseFloat` stops at the second dot. */
  lemma AmountSecondDotPasses()
    ensures AmountRule("1.2.3") == None
  {
    AmountLeadingNonZeroPasses("1.2.3");
  }

  // ---------------------------------------------------------------------
  // The whole form

  /** The rule for one field. */
  function FieldRule(f: Field, value: string): Option<string>
    requires f == Amount ==> AmountText(value)
  {
    match f
    case CardholderName => NameRule(value)
    case CardNumber => CardNumberRule(value)
    case ExpiryDate => ExpiryRule(value)
    case Cvv => CvvRule(value)
    case Amount => AmountRule(value)
  }

  /**
   * The error record `validateForm` builds from scratch, one rule per field.
   * It has no key at all exactly when every one of the five rules passes.
   */
  function Validate(data: PaymentFormData): (r: ValidationErrors)
    requires AmountText(data.amount)
    ensures r.Count() == 0 <==>
      && NameRule(data.cardholderName).None? && CardNumberRule(data.cardNumber).None?
      && ExpiryRule(data.expiryDate).None? && CvvRule(data.cvv).None?
      && AmountRule(data.amount).None?
  {
    ValidationErrors(
      NameRule(data.cardholderName),
      CardNumberRule(data.cardNumber),
      ExpiryRule(data.expiryDate),
      CvvRule(data.cvv),
      AmountRule(data.amount))
  }

  /**
   * Every slot of the error record is decided by its own field's rule alone,
   * whatever the other fields hold and whatever errors were reported before.
   */
  lemma ValidateIsPerField(data: PaymentFormData)
    requires AmountText(data.amount)
    ensures forall f :: Validate(data).Get(f) == FieldRule(f, data.Get(f))
  {
    forall f ensures Validate(data).Get(f) == FieldRule(f, data.Get(f)) {
      match f
      case CardholderName =>
      case CardNumber =>
      case ExpiryDate =>
      case Cvv =>
      case Amount =>
    }
  }

  /** Editing one field can change only that field's slot of the validation result. */
  lemma ValidateIsFieldwise(data: PaymentFormData, f: Field, v: string, g: Field)
    requires AmountText(data.amount)
    requires f == Amount ==> AmountText(v)
    requires g != f
    ensures AmountText(data.With(f, v).amount)
    ensures Validate(data.With(f, v)).Get(g) == Validate(data).Get(g)
  {
    assert data.With(f, v).Get(g) == data.Get(g);
    assert data.With(f, v).amount == data.With(f, v).Get(Amount);
  }

  /** An all-empty form gets exactly five errors, each the field's "required" message. */
  lemma EmptyFormHasFiveErrors()
    ensures Validate(EmptyForm) == ValidationErrors(
      Some(NameRequired), Some(CardRequired), Some(ExpiryRequired), Some(CvvRequired), Some(AmountRequired))
    ensures Validate(EmptyForm).Count() == 5
  {
  }

  /** A sixteen-digit card number without spaces passes the card-number rule. */
  lemma SampleCardNumberPasses()
    ensures CardNumberRule("4111111111111111") == None
  {
    var card := "4111111111111111";
    assert forall i :: 0 <= i < |card| ==> IsNonWhitespace(card[i]);
    FilterFixedPoint(IsNonWhitespace, card);
  }

  /** A plausible complete form passes every rule. */
  lemma SampleFormIsValid()
    ensures Validate(PaymentFormData("Jo", "4111111111111111", "12/29", "123", "10.00")) == NoErrors
  {
    assert !IsWhitespace("Jo"[0]) && !IsWhitespace("Jo"[1]);
    SampleCardNumberPasses();
    ExpiryDecemberAccepted();
    AmountTenPasses();
  }
}
