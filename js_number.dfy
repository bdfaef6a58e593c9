/**
 * The number conversions the checkout code uses: `parseInt(s, 10)`, the
 * outcome of `parseFloat` on amount text, and `Number.prototype.toString(36)`
 * on a non-negative integer.
 */
module JsNumber {
  import opened Wrappers
  import opened JsString

  function DigitValue(c: char): (v: nat)
    requires IsDigit(c)
    ensures v < 10
  {
    c as int - '0' as int
  }

  predicate AllDigits(s: string) {
    forall i :: 0 <= i < |s| ==> IsDigit(s[i])
  }

  /** The value of a string of decimal digits, most significant first. */
  function DecimalValue(s: string): nat
    requires AllDigits(s)
    decreases |s|
  {
    if s == [] then 0 else DecimalValue(s[..|s| - 1]) * 10 + DigitValue(s[|s| - 1])
  }

  /** A digit string denotes a positive number exactly when one of its digits is not `0`. */
  lemma {:induction false} DecimalValuePositive(s: string)
    requires AllDigits(s)
    ensures DecimalValue(s) > 0 <==> exists i :: 0 <= i < |s| && s[i] != '0'
    decreases |s|
  {
    if s != [] {
      var init := s[..|s| - 1];
      DecimalValuePositive(init);
      if exists i :: 0 <= i < |init| && init[i] != '0' {
        var i :| 0 <= i < |init| && init[i] != '0';
        assert s[i] != '0';
      }
      if exists i :: 0 <= i < |s| && s[i] != '0' {
        var i :| 0 <= i < |s| && s[i] != '0';
        if i < |s| - 1 { assert init[i] != '0'; }
      }
    }
  }

  /** The longest prefix of `s` made of decimal digits. */
  function DigitPrefix(s: string): (r: string)
    ensures |r| <= |s| && r == s[..|r|]
    ensures AllDigits(r)
    ensures |r| < |s| ==> !IsDigit(s[|r|])
    decreases |s|
  {
    if s == [] || !IsDigit(s[0]) then [] else [s[0]] + DigitPrefix(s[1..])
  }

  // ---------------------------------------------------------------------
  // parseInt(s, 10)

  /**
   * `parseInt(s, 10)`: leading whitespace is skipped, one optional sign is
   * read, then the longest run of digits; `None` stands for NaN (no digit).
   */
  function ParseInt(s: string): (r: Option<int>)
    ensures r.Some? ==> TrimStart(s) != [] && (r.value < 0 ==> TrimStart(s)[0] == '-')
  {
    var t := TrimStart(s);
    var negative := t != [] && t[0] == '-';
    var unsigned := if t != [] && (t[0] == '-' || t[0] == '+') then t[1..] else t;
    var digits := DigitPrefix(unsigned);
    if digits == [] then None
    else Some(if negative then -(DecimalValue(digits) as int) else DecimalValue(digits))
  }

  /** A non-empty string of digits parses to its decimal value. */
  lemma ParseIntOfDigits(s: string)
    requires s != [] && AllDigits(s)
    ensures ParseInt(s) == Some(DecimalValue(s))
  {
    DigitIsNotWhitespace(s[0]);
    assert LeadingWhitespace(s) == 0;
    assert TrimStart(s) == s;
    assert s[0] != '-' && s[0] != '+';
    assert |DigitPrefix(s)| == |s|;
    assert DigitPrefix(s) == s;
  }

  /** Two digits parse to ten times the first plus the second. */
  lemma ParseIntTwoDigits(s: string)
    requires |s| == 2 && AllDigits(s)
    ensures ParseInt(s) == Some(10 * DigitValue(s[0]) + DigitValue(s[1]))
  {
    ParseIntOfDigits(s);
    assert s[..1] == [s[0]] && s[..1][..0] == [];
    assert DecimalValue(s[..1]) == DigitValue(s[0]);
  }

  /** Text that holds no digit at all parses to NaN. */
  lemma ParseIntNaN(s: string)
    requires forall i :: 0 <= i < |s| ==> !IsDigit(s[i])
    ensures ParseInt(s) == None
  {
    var t := TrimStart(s);
    assert forall i :: 0 <= i < |t| ==> t[i] == s[LeadingWhitespace(s) + i];
  }

  // ---------------------------------------------------------------------
  // parseFloat on text made of digits and '.'

  predicate AmountText(s: string) {
    forall i :: 0 <= i < |s| ==> IsAmountChar(s[i])
  }

  /**
   * The longest prefix of `s` of the form `digits* ('.' digits*)?`: the part
   * of amount text that `parseFloat` reads.
   */
  function DecimalPrefix(s: string): (p: string)
    ensures |p| <= |s| && p == s[..|p|]
    ensures |DigitPrefix(s)| <= |p|
    ensures AllDigits(p) || exists k :: 0 <= k < |p| && p[k] == '.' && AllDigits(p[..k]) && AllDigits(p[k + 1..])
    ensures |p| < |s| ==> !IsDigit(s[|p|]) && (s[|p|] == '.' ==> '.' in p)
  {
    var whole := DigitPrefix(s);
    var rest := s[|whole|..];
    if rest != [] && rest[0] == '.' then
      var fraction := DigitPrefix(rest[1..]);
      var p := whole + "." + fraction;
      assert s[..|whole| + 1 + |fraction|] == p;
      assert p[|whole|] == '.' && p[..|whole|] == whole && p[|whole| + 1..] == fraction;
      p
    else whole
  }

  /** The digits `parseFloat` reads, integer part then fraction. */
  function ReadDigits(s: string): (d: string)
    ensures AllDigits(d)
  {
    Filter(IsDigit, DecimalPrefix(s))
  }

  /** `isNaN(parseFloat(s))` for amount text: `parseFloat` read no digit. */
  predicate ParseFloatIsNaN(s: string)
    requires AmountText(s)
  {
    ReadDigits(s) == []
  }

  /**
   * `parseFloat(s) > 0` for amount text. The digits read, taken as one
   * integer, are the parsed value scaled by a power of ten, so the value
   * is positive exactly when that integer is.
   */
  predicate ParseFloatIsPositive(s: string)
    requires AmountText(s)
    ensures ParseFloatIsPositive(s) ==> !ParseFloatIsNaN(s)
  {
    DecimalValue(ReadDigits(s)) > 0
  }

  /**
   * `parseFloat` of amount text is positive exactly when the prefix it
   * reads holds a non-zero digit, and a positive parse is never NaN.
   */
  lemma ParseFloatPositiveIff(s: string)
    requires AmountText(s)
    ensures ParseFloatIsPositive(s) <==>
      exists i :: 0 <= i < |DecimalPrefix(s)| && '1' <= DecimalPrefix(s)[i] <= '9'
    ensures ParseFloatIsPositive(s) ==> !ParseFloatIsNaN(s)
  {
    var p := DecimalPrefix(s);
    var d := ReadDigits(s);
    DecimalValuePositive(d);
    forall c | '1' <= c <= '9' ensures c in d <==> c in p {
      FilterMembership(IsDigit, p, c);
    }
    if exists i :: 0 <= i < |p| && '1' <= p[i] <= '9' {
      var i :| 0 <= i < |p| && '1' <= p[i] <= '9';
      assert p[i] in d;
    }
    if exists j :: 0 <= j < |d| && d[j] != '0' {
      var j :| 0 <= j < |d| && d[j] != '0';
      assert d[j] in p;
    }
  }

  // ---------------------------------------------------------------------
  // Number.prototype.toString(36) for non-negative integers

  predicate IsBase36Lower(c: char) { IsDigit(c) || 'a' <= c <= 'z' }

  predicate IsBase36Upper(c: char) { IsDigit(c) || 'A' <= c <= 'Z' }

  function Base36Digit(d: nat): (c: char)
    requires d < 36
    ensures IsBase36Lower(c)
  {
    if d < 10 then (d + '0' as int) as char else (d - 10 + 'a' as int) as char
  }

  /** The value of a base-36 digit in either case (`0` for any other character). */
  function Base36Value(c: char): nat {
    if IsDigit(c) then c as int - '0' as int
    else if 'a' <= c <= 'z' then c as int - 'a' as int + 10
    else if 'A' <= c <= 'Z' then c as int - 'A' as int + 10
    else 0
  }

  /** `n.toString(36)`: lower-case digits, most significant first, no leading zero. */
  function Base36(n: nat): (r: string)
    ensures r != []
    ensures forall i :: 0 <= i < |r| ==> IsBase36Lower(r[i])
    ensures |r| > 1 ==> r[0] != '0'
    decreases n
  {
    if n < 36 then [Base36Digit(n)] else Base36(n / 36) + [Base36Digit(n % 36)]
  }

  /** Reads base-36 text of either case back to a number. */
  function ParseBase36(s: string): nat
    decreases |s|
  {
    if s == [] then 0 else ParseBase36(s[..|s| - 1]) * 36 + Base36Value(s[|s| - 1])
  }

  /** Rendering in base 36 and reading back gives the number. */
  lemma {:induction false} Base36RoundTrip(n: nat)
    ensures ParseBase36(Base36(n)) == n
    decreases n
  {
    var r := Base36(n);
    if n < 36 {
      assert r[..0] == [];
    } else {
      Base36RoundTrip(n / 36);
      assert r[..|r| - 1] == Base36(n / 36);
    }
  }

  /** Upper-casing base-36 text does not change the number it denotes. */
  lemma {:induction false} UpperCaseKeepsBase36Value(s: string)
    ensures ParseBase36(ToUpperAscii(s)) == ParseBase36(s)
    decreases |s|
  {
    if s != [] {
      var u := ToUpperAscii(s);
      assert u[..|u| - 1] == ToUpperAscii(s[..|s| - 1]);
      UpperCaseKeepsBase36Value(s[..|s| - 1]);
    }
  }

  /** Upper-casing maps lower-case base-36 digits onto upper-case ones. */
  lemma UpperCaseBase36(s: string)
    requires forall i :: 0 <= i < |s| ==> IsBase36Lower(s[i])
    ensures forall i :: 0 <= i < |s| ==> IsBase36Upper(ToUpperAscii(s)[i])
  {
  }
}
