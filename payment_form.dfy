/**
 * The payment form: its state (the entered data and the errors shown), the
 * input handler that normalises each keystroke, the validation pass, and the
 * submit handler that saves a transaction record when validation passes.
 */
module PaymentForm {
  import opened Wrappers
  import opened JsString
  import opened JsNumber
  import opened PaymentTypes
  import opened FieldFormat
  import opened Validation
  import opened PaymentStore

  /**
   * The record a successful submission saves: the trimmed name, the masked
   * card number, the expiry date as entered, the amount as rendered with two
   * decimals (`amountText`), status `Success`, and the generated identifier.
   * Whatever the form held, the saved name has no surrounding whitespace and
   * the saved card number shows at most its last four characters.
   */
  function BuildTransaction(data: PaymentFormData, amountText: string, transactionId: string): (t: TransactionResult)
    ensures t.cardholderName == Trim(data.cardholderName)
    ensures t.maskedCardNumber == MaskCardNumber(data.cardNumber)
    ensures t.expiryDate == data.expiryDate
    ensures t.amount == amountText && t.transactionId == transactionId
    ensures t.status == Success
    ensures Trim(t.cardholderName) == t.cardholderName
    ensures |MaskPrefix| <= |t.maskedCardNumber| <= |MaskPrefix| + 4
    ensures t.maskedCardNumber[..|MaskPrefix|] == MaskPrefix
  {
    TrimIdempotent(data.cardholderName);
    TransactionResult(
      Trim(data.cardholderName),
      MaskCardNumber(data.cardNumber),
      data.expiryDate,
      amountText,
      Success,
      transactionId)
  }

  /** An accepted name, once trimmed, has two or more characters and no whitespace at either end. */
  lemma AcceptedNameShape(name: string)
    requires NameRule(name).None?
    ensures var t := Trim(name);
      |t| >= 2 && !IsWhitespace(t[0]) && !IsWhitespace(t[|t| - 1]) && Trim(t) == t
  {
    TrimAtLeastTwo(name);
    TrimIsStretch(name);
    TrimIdempotent(name);
  }

  /**
   * An accepted, formatted card number holds 13 to 16 digits, and its mask is
   * exactly 19 characters: the fixed prefix and the last four of those digits.
   */
  lemma AcceptedCardMask(card: string)
    requires FormatCardNumber(card) == card
    requires CardNumberRule(card).None?
    ensures var d := Digits(card);
      && 13 <= |d| <= 16
      && MaskCardNumber(card) == MaskPrefix + d[|d| - 4..]
      && |MaskCardNumber(card)| == 19
  {
    var d := Digits(card);
    FormatCardNumberShape(card);
    FormatCardNumberStripped(card);
    assert |d| <= 16;
    assert d[..Min(16, |d|)] == d;
    MaskKeepsLastFour(card);
  }

  /** `MM/YY`: two digits, `/`, two digits, and a month from 1 to 12. */
  predicate IsMonthYear(e: string) {
    && |e| == 5 && e[2] == '/'
    && IsDigit(e[0]) && IsDigit(e[1]) && IsDigit(e[3]) && IsDigit(e[4])
    && 1 <= 10 * DigitValue(e[0]) + DigitValue(e[1]) <= 12
  }

  /** An accepted, formatted expiry date is `MM/YY` with a month from 1 to 12. */
  lemma AcceptedExpiryShape(expiry: string)
    requires FormatExpiryDate(expiry) == expiry
    requires ExpiryRule(expiry).None?
    ensures IsMonthYear(expiry)
  {
    var c := Digits(expiry);
    FormattedExpiryRule(expiry);
    FormatExpiryDateShape(expiry);
    assert expiry == c[..2] + "/" + c[2..4];
    assert expiry[0] == c[0] && expiry[1] == c[1];
  }

  /**
   * The shape of a saved record made from `data`: status `Success`, the
   * typed name trimmed, with two or more characters, a 19-character mask
   * ending in the last four of 13 to 16 card digits, the typed expiry, which
   * is `MM/YY` with a valid month, and a positive amount behind it.
   */
  predicate SavedRecordShape(data: PaymentFormData, t: TransactionResult)
    requires AmountText(data.amount)
  {
    var d := Digits(data.cardNumber);
    && t.status == Success
    && t.cardholderName == Trim(data.cardholderName)
    && |t.cardholderName| >= 2 && Trim(t.cardholderName) == t.cardholderName
    && 13 <= |d| <= 16 && |t.maskedCardNumber| == 19
    && t.maskedCardNumber == MaskPrefix + d[|d| - 4..]
    && t.expiryDate == data.expiryDate && IsMonthYear(t.expiryDate)
    && ParseFloatIsPositive(data.amount)
  }

  /**
   * What a submission can save: for form data in the state the input handler
   * keeps, when validation reports no error, the record has the shape above.
   * (`AmountText(data.amount)` follows from `Normalised(data)`, see
   * `NormalisedAmountText`; it is repeated so that `Validate` may be applied.)
   */
  lemma SubmittedRecordShape(data: PaymentFormData, amountText: string, transactionId: string)
    requires Normalised(data) && AmountText(data.amount) && Validate(data) == NoErrors
    ensures SavedRecordShape(data, BuildTransaction(data, amountText, transactionId))
  {
    AcceptedFields(data);
    AcceptedRecordShape(data, amountText, transactionId);
  }

  /** Data that passes validation passes each rule, and its formatted fields are fixed points. */
  lemma AcceptedFields(data: PaymentFormData)
    requires Normalised(data) && AmountText(data.amount) && Validate(data) == NoErrors
    ensures NameRule(data.cardholderName).None? && CardNumberRule(data.cardNumber).None?
    ensures ExpiryRule(data.expiryDate).None? && CvvRule(data.cvv).None? && AmountRule(data.amount).None?
    ensures FormatCardNumber(data.cardNumber) == data.cardNumber
    ensures FormatExpiryDate(data.expiryDate) == data.expiryDate
  {
    assert Validate(data).cvv == CvvRule(data.cvv);
    assert Normalise(CardNumber, data.Get(CardNumber)) == data.cardNumber;
    assert Normalise(ExpiryDate, data.Get(ExpiryDate)) == data.expiryDate;
  }

  /** The record built from fields that each pass their rule has the saved-record shape. */
  lemma AcceptedRecordShape(data: PaymentFormData, amountText: string, transactionId: string)
    requires AmountText(data.amount)
    requires NameRule(data.cardholderName).None? && CardNumberRule(data.cardNumber).None?
    requires ExpiryRule(data.expiryDate).None? && AmountRule(data.amount).None?
    requires FormatCardNumber(data.cardNumber) == data.cardNumber
    requires FormatExpiryDate(data.expiryDate) == data.expiryDate
    ensures SavedRecordShape(data, BuildTransaction(data, amountText, transactionId))
  {
    AcceptedNameShape(data.cardholderName);
    AcceptedCardMask(data.cardNumber);
    AcceptedExpiryShape(data.expiryDate);
    ParseFloatPositiveIff(data.amount);
  }

  /** The form component's state: the entered data and the errors on display. */
  class FormState {
    var formData: PaymentFormData
    var errors: ValidationErrors

    /** Every field holds what its normaliser makes of it. */
    ghost predicate Valid()
      reads this
    {
      Normalised(formData)
    }

    /** A fresh form: every field empty, no error shown. */
    constructor()
      ensures Valid()
      ensures formData == EmptyForm && errors == NoErrors
    {
      formData := EmptyForm;
      errors := NoErrors;
      new;
      assert forall f :: formData.Get(f) == "";
    }

    /**
     * `validateForm`: replaces the displayed errors by a fresh validation of
     * the current data, and answers whether no field has an error.
     */
    method ValidateForm() returns (ok: bool)
      requires Valid()
      modifies this`errors
      ensures Valid()
      ensures AmountText(formData.amount) && errors == Validate(formData)
      ensures ok <==> forall f :: errors.Get(f).None?
    {
      NormalisedAmountText(formData);
      var newErrors := Validate(formData);
      errors := newErrors;
      ok := newErrors.Count() == 0;
    }

    /**
     * `handleInputChange`: the edited field receives its normalised value,
     * every other field is kept, and the field's error (if any) is cleared
     * while every other error stays on display.
     */
    method HandleInputChange(field: Field, value: string)
      requires Valid()
      modifies this
      ensures Valid()
      ensures formData.Get(field) == Normalise(field, value)
      ensures forall g :: g != field ==> formData.Get(g) == old(formData.Get(g))
      ensures errors.Get(field).None?
      ensures forall g :: g != field ==> errors.Get(g) == old(errors.Get(g))
    {
      var processedValue := Normalise(field, value);
      NormaliseIdempotent(field, value);
      formData := formData.With(field, processedValue);
      if errors.Get(field).Some? {
        errors := errors.With(field, None);
      }
    }

    /**
     * `handleSubmit`: validates; on any error nothing is saved; otherwise the
     * record built from the current data is saved in the store. The clock
     * reading, the rendering of the random number and the two-decimal
     * rendering of the amount are parameters.
     */
    method HandleSubmit(store: TransactionStore, timestamp: nat, randomText: string, toFixed2: string -> string)
      returns (submitted: bool)
      requires Valid()
      modifies this`errors, store
      ensures Valid()
      ensures AmountText(formData.amount) && errors == Validate(formData)
      ensures submitted <==> forall f :: errors.Get(f).None?
      ensures submitted ==> SavedRecordShape(formData,
        BuildTransaction(formData, toFixed2(formData.amount), GenerateTransactionId(timestamp, randomText)))
      ensures !submitted ==> store.State() == old(store.State())
      ensures submitted ==> store.State() == SaveStep(old(store.State()),
        BuildTransaction(formData, toFixed2(formData.amount), GenerateTransactionId(timestamp, randomText)))
    {
      var ok := ValidateForm();
      if !ok {
        return false;
      }
      var data := formData;
      assert errors == NoErrors by {
        assert errors.Get(CardholderName).None? && errors.Get(CardNumber).None?;
        assert errors.Get(ExpiryDate).None? && errors.Get(Cvv).None? && errors.Get(Amount).None?;
      }
      SubmittedRecordShape(data, toFixed2(data.amount), GenerateTransactionId(timestamp, randomText));
      store.Save(BuildTransaction(data, toFixed2(data.amount), GenerateTransactionId(timestamp, randomText)));
      return true;
    }
  }
}
