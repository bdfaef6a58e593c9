/**
 * The per-keystroke normalisers of the payment form (PaymentForm.tsx):
 * card-number grouping, `MM/YY` expiry, the CVV and amount filters, and the
 * dispatch on the edited field.
 */
module FieldFormat {
  import opened JsString
  import opened JsNumber
  import opened PaymentTypes

  /** `value.replace(/\D/g, '')`. */
  function Digits(s: string): (r: string)
    ensures AllDigits(r)
  {
    Filter(IsDigit, s)
  }

  /** A string of digits is its own digit filter. */
  lemma DigitsOfDigits(s: string)
    requires AllDigits(s)
    ensures Digits(s) == s
  {
    FilterFixedPoint(IsDigit, s);
  }

  // ---------------------------------------------------------------------
  // Card number

  /** `d.match(/.{1,4}/g).join(' ')`: the digits in groups of four separated by single spaces. */
  function Grouped(d: string): string {
    Join(Chunks(d, 4), ' ')
  }

  /** Past the first four characters, grouping is: four characters, a space, the rest grouped. */
  lemma GroupedStep(d: string)
    requires |d| > 4
    ensures Grouped(d) == d[..4] + " " + Grouped(d[4..])
  {
    var parts := Chunks(d, 4);
    assert parts == [d[..4]] + Chunks(d[4..], 4);
    assert parts[1..] == Chunks(d[4..], 4);
  }

  /** Short digit strings are a single group. */
  lemma GroupedShort(d: string)
    requires |d| <= 4
    ensures Grouped(d) == d
  {
  }

  /**
   * The shape of grouped digits: a space exactly at every fifth position
   * (so every space follows exactly four digits since the previous space or
   * the start), digits everywhere else, and one separator for every complete
   * group of four that is followed by more digits.
   */
  lemma {:induction false} GroupedShape(d: string)
    requires AllDigits(d)
    ensures |Grouped(d)| == if d == [] then 0 else |d| + (|d| - 1) / 4
    ensures forall i :: 0 <= i < |Grouped(d)| ==> (Grouped(d)[i] == ' ' <==> i % 5 == 4)
    ensures forall i :: 0 <= i < |Grouped(d)| ==> Grouped(d)[i] == ' ' || IsDigit(Grouped(d)[i])
    decreases |d|
  {
    var g := Grouped(d);
    if |d| <= 4 {
      GroupedShort(d);
    } else {
      GroupedStep(d);
      var rest := Grouped(d[4..]);
      GroupedShape(d[4..]);
      forall i | 0 <= i < |g| ensures (g[i] == ' ' <==> i % 5 == 4) && (g[i] == ' ' || IsDigit(g[i])) {
        if i < 4 {
          assert g[i] == d[i];
        } else if i > 4 {
          assert g[i] == rest[i - 5];
          assert (i - 5) % 5 == i % 5;
        }
      }
    }
  }

  /** Removing the separators (or anything else the digits survive) gives back the digits. */
  lemma {:induction false} GroupedFilter(keep: char -> bool, d: string)
    requires forall i :: 0 <= i < |d| ==> keep(d[i])
    requires !keep(' ')
    ensures Filter(keep, Grouped(d)) == d
    decreases |d|
  {
    if |d| <= 4 {
      GroupedShort(d);
      FilterFixedPoint(keep, d);
    } else {
      GroupedStep(d);
      GroupedFilter(keep, d[4..]);
      FilterFixedPoint(keep, d[..4]);
      FilterAppend(keep, d[..4] + " ", Grouped(d[4..]));
      FilterAppend(keep, d[..4], " ");
      assert d == d[..4] + d[4..];
    }
  }

  /** The first `5k - 1` characters of the grouping are the grouping of the first `4k` digits. */
  lemma {:induction false} GroupedPrefix(d: string, k: nat)
    requires 1 <= k && 4 * k <= |d|
    ensures |Grouped(d)| >= 5 * k - 1
    ensures Grouped(d)[..5 * k - 1] == Grouped(d[..4 * k])
    decreases k
  {
    if k == 1 {
      GroupedShort(d[..4]);
      if |d| > 4 { GroupedStep(d); } else { GroupedShort(d); }
    } else {
      GroupedStep(d);
      GroupedPrefix(d[4..], k - 1);
      var p := d[..4 * k];
      GroupedStep(p);
      assert p[..4] == d[..4];
      assert p[4..] == d[4..][..4 * (k - 1)];
    }
  }

  /**
   * Cutting the grouping at 19 characters is grouping the first sixteen
   * digits: the cut never splits a group or leaves a trailing space.
   */
  lemma GroupedCut(c: string)
    requires AllDigits(c)
    ensures Substring(Grouped(c), 0, 19) == Grouped(c[..Min(16, |c|)])
  {
    if c == [] {
      assert c[..0] == c;
    } else {
      GroupedShape(c);
      if |c| >= 16 {
        GroupedPrefix(c, 4);
      } else {
        assert c[..|c|] == c;
      }
    }
  }

  /**
   * `formatCardNumber`: keep the digits, group them in fours, cut the text
   * at 19 characters. The result is the grouping of the first sixteen digits
   * typed.
   */
  function FormatCardNumber(value: string): (r: string)
    ensures |r| <= 19
    ensures var c := Digits(value); r == Grouped(c[..Min(16, |c|)])
  {
    var cleaned := Digits(value);
    var groups := Chunks(cleaned, 4);
    GroupedCut(cleaned);
    if groups != [] then Substring(Join(groups, ' '), 0, 19) else ""
  }

  /**
   * What `formatCardNumber` promises: only digits and spaces, at most 19
   * characters; its digits are the first `min(16, n)` digits of the input in
   * order; a space exactly at every fifth position, so each space follows
   * exactly four digits since the previous space or the start; never a
   * trailing space; and no digits in gives the empty string.
   */
  lemma FormatCardNumberShape(value: string)
    ensures var r := FormatCardNumber(value);
      && |r| <= 19
      && (forall i :: 0 <= i < |r| ==> r[i] == ' ' || IsDigit(r[i]))
      && Digits(r) == Digits(value)[..Min(16, |Digits(value)|)]
      && (forall i :: 0 <= i < |r| ==> (r[i] == ' ' <==> i % 5 == 4))
      && (forall i :: 0 <= i < |r| && r[i] == ' ' ==>
            4 <= i && (forall k :: i - 4 <= k < i ==> IsDigit(r[k])) && (i == 4 || r[i - 5] == ' '))
      && (r != [] ==> r[|r| - 1] != ' ')
      && (Digits(value) == [] ==> r == [])
  {
    var c := Digits(value);
    var t := c[..Min(16, |c|)];
    var r := FormatCardNumber(value);
    assert r == Grouped(t);
    assert Digits(r) == t by { GroupedFilter(IsDigit, t); }
    GroupedShape(t);
    GroupedSpacing(r);
  }

  /**
   * In text with a space exactly at every fifth position and digits
   * elsewhere, each space follows four digits, after either the start or
   * another space.
   */
  lemma GroupedSpacing(r: string)
    requires forall i :: 0 <= i < |r| ==> (r[i] == ' ' <==> i % 5 == 4)
    requires forall i :: 0 <= i < |r| ==> r[i] == ' ' || IsDigit(r[i])
    ensures forall i :: 0 <= i < |r| && r[i] == ' ' ==>
      4 <= i && (forall k :: i - 4 <= k < i ==> IsDigit(r[k])) && (i == 4 || r[i - 5] == ' ')
  {
    forall i | 0 <= i < |r| && r[i] == ' '
      ensures 4 <= i && (forall k :: i - 4 <= k < i ==> IsDigit(r[k])) && (i == 4 || r[i - 5] == ' ')
    {
      forall k | i - 4 <= k < i ensures IsDigit(r[k]) { assert k % 5 != 4; }
    }
  }

  /** Formatting an already formatted card number changes nothing. */
  lemma FormatCardNumberIdempotent(value: string)
    ensures FormatCardNumber(FormatCardNumber(value)) == FormatCardNumber(value)
  {
    var r := FormatCardNumber(value);
    FormatCardNumberShape(value);
    var t := Digits(r);
    assert t[..Min(16, |t|)] == t;
  }

  /** With whitespace removed, a formatted card number is its first sixteen digits. */
  lemma FormatCardNumberStripped(value: string)
    ensures var c := Digits(value);
      Filter(IsNonWhitespace, FormatCardNumber(value)) == c[..Min(16, |c|)]
  {
    var c := Digits(value);
    var t := c[..Min(16, |c|)];
    forall i | 0 <= i < |t| ensures IsNonWhitespace(t[i]) { DigitIsNotWhitespace(t[i]); }
    GroupedFilter(IsNonWhitespace, t);
  }

  // ---------------------------------------------------------------------
  // Expiry date

  /**
   * `formatExpiryDate`: keep the digits; from two digits on, `MM/` then up
   * to two more digits. At most five characters come out, and the slash
   * appears exactly when two digits were typed.
   */
  function FormatExpiryDate(value: string): (r: string)
    ensures |r| <= 5
    ensures |Digits(value)| < 2 ==> r == Digits(value)
    ensures |Digits(value)| >= 2 ==> |r| >= 3 && r[..2] == Digits(value)[..2] && r[2] == '/'
  {
    var cleaned := Digits(value);
    if |cleaned| >= 2 then Substring(cleaned, 0, 2) + "/" + Substring(cleaned, 2, 4) else cleaned
  }

  /**
   * What `formatExpiryDate` promises: fewer than two digits come back as
   * they are; otherwise the first two digits, `/`, and the next up to two
   * digits. The result has at most five characters, its digits are the
   * first four digits of the input, and a `/` stands at position 2 and
   * nowhere else.
   */
  lemma FormatExpiryDateShape(value: string)
    ensures var c := Digits(value); var r := FormatExpiryDate(value);
      && |r| <= 5
      && (|c| < 2 ==> r == c)
      && (|c| >= 2 ==> r == c[..2] + "/" + c[2..Min(4, |c|)])
      && Digits(r) == c[..Min(4, |c|)]
      && (forall i :: 0 <= i < |r| ==> (r[i] == '/' <==> i == 2))
      && (forall i :: 0 <= i < |r| && i != 2 ==> IsDigit(r[i]))
  {
    var c := Digits(value);
    var r := FormatExpiryDate(value);
    if |c| < 2 {
      DigitsOfDigits(c);
    } else {
      var month, year := c[..2], c[2..Min(4, |c|)];
      assert r == month + "/" + year;
      DigitsOfDigits(month);
      DigitsOfDigits(year);
      FilterAppend(IsDigit, month + "/", year);
      FilterAppend(IsDigit, month, "/");
      assert c[..Min(4, |c|)] == month + year;
      forall i | 0 <= i < |r| ensures (r[i] == '/' <==> i == 2) && (i != 2 ==> IsDigit(r[i])) {
        if i > 2 { assert r[i] == year[i - 3]; }
      }
    }
  }

  /** Formatting an already formatted expiry date changes nothing. */
  lemma FormatExpiryDateIdempotent(value: string)
    ensures FormatExpiryDate(FormatExpiryDate(value)) == FormatExpiryDate(value)
  {
    var c := Digits(value);
    var r := FormatExpiryDate(value);
    FormatExpiryDateShape(value);
    FormatExpiryDateShape(r);
  }

  /** Examples of the formatter: one digit stays as it is, two digits gain the slash. */
  lemma FormatExpiryDateShortExamples()
    ensures FormatExpiryDate("1") == "1"
    ensures FormatExpiryDate("12") == "12/"
  {
    ExpiryExample("1");
    ExpiryExample("12");
  }

  /** Four digits give `MM/YY`. */
  lemma FormatExpiryDateFourDigits()
    ensures FormatExpiryDate("1234") == "12/34"
  {
    ExpiryExample("1234");
  }

  /** A fifth digit is dropped. */
  lemma FormatExpiryDateDropsFifthDigit()
    ensures FormatExpiryDate("12345") == "12/34"
  {
    ExpiryExample("12345");
    assert "12345"[..2] == "12" && "12345"[2..4] == "34";
  }

  lemma ExpiryExample(s: string)
    requires AllDigits(s)
    ensures FormatExpiryDate(s) == if |s| < 2 then s else s[..2] + "/" + s[2..Min(4, |s|)]
  {
    DigitsOfDigits(s);
    FormatExpiryDateShape(s);
  }

  // ---------------------------------------------------------------------
  // CVV and amount

  /** The CVV filter: `value.replace(/\D/g, '').substring(0, 4)`. */
  function FilterCvv(value: string): (r: string)
    ensures |r| <= 4 && AllDigits(r)
  {
    Substring(Digits(value), 0, 4)
  }

  /** The CVV becomes the first (at most four) digits typed. */
  lemma FilterCvvShape(value: string)
    ensures var c := Digits(value); var r := FilterCvv(value);
      && r == c[..Min(4, |c|)]
      && |r| <= 4
      && AllDigits(r)
    ensures FilterCvv(FilterCvv(value)) == FilterCvv(value)
  {
    var r := FilterCvv(value);
    DigitsOfDigits(r);
  }

  /** The amount filter: `value.replace(/[^0-9.]/g, '')`. */
  function FilterAmount(value: string): (r: string)
    ensures AmountText(r) && |r| <= |value|
  {
    Filter(IsAmountChar, value)
  }

  /**
   * The amount keeps exactly its digits and dots, each as often as it was
   * typed (repeated dots are not collapsed), and filtering again changes
   * nothing.
   */
  lemma FilterAmountShape(value: string)
    ensures AmountText(FilterAmount(value))
    ensures forall c :: IsAmountChar(c) ==> multiset(FilterAmount(value))[c] == multiset(value)[c]
    ensures forall c :: !IsAmountChar(c) ==> c !in FilterAmount(value)
    ensures FilterAmount(FilterAmount(value)) == FilterAmount(value)
  {
    forall c ensures multiset(FilterAmount(value))[c] == if IsAmountChar(c) then multiset(value)[c] else 0 {
      FilterCounts(IsAmountChar, value, c);
    }
    FilterIdempotent(IsAmountChar, value);
  }

  // ---------------------------------------------------------------------
  // Dispatch on the edited field

  /**
   * The `processedValue` of `handleInputChange`: the cardholder name is
   * stored as typed; every other field is bounded by what its input element
   * allows (19, 5 and 4 characters) or, for the amount, holds only digits
   * and dots.
   */
  function Normalise(f: Field, value: string): (r: string)
    ensures f == CardholderName ==> r == value
    ensures f == CardNumber ==> |r| <= 19
    ensures f == ExpiryDate ==> |r| <= 5
    ensures f == Cvv ==> |r| <= 4 && AllDigits(r)
    ensures f == Amount ==> AmountText(r)
  {
    match f
    case CardNumber => FormatCardNumber(value)
    case ExpiryDate => FormatExpiryDate(value)
    case Cvv => FilterCvv(value)
    case Amount => FilterAmount(value)
    case CardholderName => value
  }

  /** Normalising a normalised value changes nothing, for every field. */
  lemma NormaliseIdempotent(f: Field, value: string)
    ensures Normalise(f, Normalise(f, value)) == Normalise(f, value)
  {
    match f
    case CardNumber => FormatCardNumberIdempotent(value);
    case ExpiryDate => FormatExpiryDateIdempotent(value);
    case Cvv => FilterCvvShape(value);
    case Amount => FilterAmountShape(value);
    case CardholderName =>
  }

  /** The state the form keeps: every field is what its normaliser makes of it. */
  predicate Normalised(data: PaymentFormData) {
    forall f :: Normalise(f, data.Get(f)) == data.Get(f)
  }

  /** Normalised amount text holds only digits and dots. */
  lemma NormalisedAmountText(data: PaymentFormData)
    requires Normalised(data)
    ensures AmountText(data.amount)
  {
    assert Normalise(Amount, data.Get(Amount)) == data.amount;
    FilterAmountShape(data.amount);
  }
}
