/** The records the checkout passes around: form data, validation errors, the transaction result. */
module PaymentTypes {
  import opened Wrappers

  /** The five form fields, `keyof PaymentFormData`. */
  datatype Field = CardholderName | CardNumber | ExpiryDate | Cvv | Amount

  /** What the user has entered, one string per field. */
  datatype PaymentFormData = PaymentFormData(
    cardholderName: string,
    cardNumber: string,
    expiryDate: string,
    cvv: string,
    amount: string)
  {
    function Get(f: Field): string {
      match f
      case CardholderName => cardholderName
      case CardNumber => cardNumber
      case ExpiryDate => expiryDate
      case Cvv => cvv
      case Amount => amount
    }

    /** `{ ...data, [f]: v }`: field `f` becomes `v`, every other field stays. */
    function With(f: Field, v: string): (d: PaymentFormData)
      ensures d.Get(f) == v
      ensures forall g :: g != f ==> d.Get(g) == Get(g)
    {
      match f
      case CardholderName => this.(cardholderName := v)
      case CardNumber => this.(cardNumber := v)
      case ExpiryDate => this.(expiryDate := v)
      case Cvv => this.(cvv := v)
      case Amount => this.(amount := v)
    }
  }

  /** The form's initial contents: every field empty. */
  const EmptyForm := PaymentFormData("", "", "", "", "")

  datatype TransactionStatus = Success | Failed

  /** The record the store holds and the receipt shows. */
  datatype TransactionResult = TransactionResult(
    cardholderName: string,
    maskedCardNumber: string,
    expiryDate: string,
    amount: string,
    status: TransactionStatus,
    transactionId: string)

  /** One optional message per field; `None` means the field has no error. */
  datatype ValidationErrors = ValidationErrors(
    cardholderName: Option<string>,
    cardNumber: Option<string>,
    expiryDate: Option<string>,
    cvv: Option<string>,
    amount: Option<string>)
  {
    function Get(f: Field): Option<string> {
      match f
      case CardholderName => cardholderName
      case CardNumber => cardNumber
      case ExpiryDate => expiryDate
      case Cvv => cvv
      case Amount => amount
    }

    /** `{ ...errors, [f]: m }`: slot `f` becomes `m`, every other slot stays. */
    function With(f: Field, m: Option<string>): (e: ValidationErrors)
      ensures e.Get(f) == m
      ensures forall g :: g != f ==> e.Get(g) == Get(g)
    {
      match f
      case CardholderName => this.(cardholderName := m)
      case CardNumber => this.(cardNumber := m)
      case ExpiryDate => this.(expiryDate := m)
      case Cvv => this.(cvv := m)
      case Amount => this.(amount := m)
    }

    /** `Object.keys(errors).length` for a record built by setting only failing fields. */
    function Count(): (n: nat)
      ensures n <= 5
      ensures n == 0 <==> forall f :: Get(f).None?
      ensures n == 5 <==> forall f :: Get(f).Some?
    {
      assert Get(CardholderName) == cardholderName && Get(CardNumber) == cardNumber;
      assert Get(ExpiryDate) == expiryDate && Get(Cvv) == cvv && Get(Amount) == amount;
      (if cardholderName.Some? then 1 else 0) + (if cardNumber.Some? then 1 else 0)
      + (if expiryDate.Some? then 1 else 0) + (if cvv.Some? then 1 else 0)
      + (if amount.Some? then 1 else 0)
    }
  }

  /** `{}`: no field has an error. */
  const NoErrors := ValidationErrors(None, None, None, None, None)
}
