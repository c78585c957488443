/**
 * The field validators of the RiBa generator (ribalta/src/ribalta/utils/validators.py):
 * the creditor's SIA code, a ZIP code, the ABI and CAB bank codes and the
 * creditor's account number. A validator returns nothing or raises; the
 * model returns `Pass` or the failure it raises.
 *
 * The values come from Odoo records and may be `None`, `False`, an int or a
 * str, so they are `Py.Value`s.
 */
module RibaValidators {
  import opened Wrappers
  import opened PyText
  import opened Py

  /** The field a check is about. */
  datatype Field = Sia | Zip | Abi | Cab | AccountNumber | BankCodes | Iban | VatOrFiscalCode

  /** What is wrong with it. */
  datatype Problem = Missing | WrongType | WrongLength | NotLetter | NotDigits | AllZeros

  datatype Failure =
    | UserError(field: Field, problem: Problem)
    | FiscalcodeMissing      // FiscalcodeMissingError
    | MissingArgument        // TypeError: a required positional argument was not passed

  type Check = Outcome<Failure>

  /** `10 ** w`. */
  function Pow10(w: nat): (r: nat)
    ensures r >= 1
  {
    if w == 0 then 1 else 10 * Pow10(w - 1)
  }

  /** A decimal code of exactly `width` digits that is not all zeros. */
  predicate DigitCode(s: string, width: nat) {
    IsNumeric(s) && |s| == width && DigitsValue(s) != 0
  }

  // ------------------------------------------------------------ SIA

  /** A SIA code: one letter, then four digits. */
  predicate SiaShape(s: string) {
    |s| == 5 && IsAlpha(s[0]) && IsNumeric(s[1..])
  }

  /** validate_sia: missing (None, '', False or 0), not a str, not 5 long, no leading letter, not 4 digits after it. */
  function ValidateSia(v: Value): (r: Check)
    ensures r.Pass? <==> v.Str? && SiaShape(v.s)
    ensures IsMissing(v) ==> r == Fail(UserError(Sia, Missing))
    ensures !IsMissing(v) && !v.Str? ==> r == Fail(UserError(Sia, WrongType))
    ensures v.Str? && v.s != [] && |v.s| != 5 ==> r == Fail(UserError(Sia, WrongLength))
  {
    if IsMissing(v) then Fail(UserError(Sia, Missing))
    else if !v.Str? then Fail(UserError(Sia, WrongType))
    else if |v.s| != 5 then Fail(UserError(Sia, WrongLength))
    else if !IsAlpha(v.s[0]) then Fail(UserError(Sia, NotLetter))
    else if !IsNumeric(v.s[1..]) then Fail(UserError(Sia, NotDigits))
    else Pass
  }

  // ------------------------------------------------------------ ZIP

  /**
   * validate_zip: a missing ZIP is fine; an int is rendered with str(),
   * left-padded with zeros to 5 and checked again; a str must be 5 digits and
   * not 00000; any other type is wrong.
   */
  function ValidateZip(v: Value): (r: Check)
    decreases if v.Str? then 0 else 1
  {
    if IsMissing(v) then Pass
    else if IsInt(v) then ValidateZip(Str(RJust(ToStr(v), 5, '0')))
    else if v.Str? then
      if !IsNumeric(v.s) then Fail(UserError(Zip, NotDigits))
      else if |v.s| != 5 then Fail(UserError(Zip, WrongLength))
      else if DigitsValue(v.s) == 0 then Fail(UserError(Zip, AllZeros))
      else Pass
    else Fail(UserError(Zip, WrongType))
  }

  /** The digits of n, padded to `width`, are numeric, `width` long, and read back as n. */
  lemma {:induction false} PaddedDigits(n: nat, width: nat)
    requires n < Pow10(width) && width >= 1
    ensures DigitCode(RJust(NatToStr(n), width, '0'), width) <==> n != 0
    ensures IsNumeric(RJust(NatToStr(n), width, '0')) && |RJust(NatToStr(n), width, '0')| == width
    ensures DigitsValue(RJust(NatToStr(n), width, '0')) == n
  {
    var s := NatToStr(n);
    DigitsShort(n, width);
    DigitsOfNat(n);
    if |s| < width {
      LeadingZeros(width - |s|, s);
    }
  }

  /** str(n) is at most `width` long exactly when n < 10 ** width (str(0) is "0", one digit). */
  lemma {:induction false} DigitsShort(n: nat, width: nat)
    requires width >= 1 || n >= 1
    ensures |NatToStr(n)| <= width <==> n < Pow10(width)
    decreases width
  {
    if width > 0 && n >= 10 {
      DigitsShort(n / 10, width - 1);
    } else if width > 0 {
      assert Pow10(width) >= 10 by {
        assert Pow10(width) == 10 * Pow10(width - 1);
      }
    } else {
      assert |NatToStr(n)| >= 1;
    }
  }

  /** A rendered negative number or `True` is never numeric, whatever the padding. */
  lemma NotNumericPadded(v: Value, width: nat)
    requires (v.Int? && v.i < 0) || v == Bool(true)
    ensures !IsNumeric(RJust(ToStr(v), width, '0'))
  {
    var t := ToStr(v);
    var r := RJust(t, width, '0');
    assert !IsDigit(t[0]);
    if |t| < width {
      assert r[width - |t|] == t[0];
    } else {
      assert r[0] == t[0];
    }
  }

  /**
   * A ZIP is accepted exactly when it is missing, a str of five digits other
   * than 00000, or an int from 1 to 99999.
   */
  lemma ZipAccepts(v: Value)
    ensures ValidateZip(v).Pass? <==>
      IsMissing(v) || (v.Str? && DigitCode(v.s, 5)) || (v.Int? && 1 <= v.i < 100000)
  {
    if !IsMissing(v) && IsInt(v) {
      var t := RJust(ToStr(v), 5, '0');
      if v.Int? && 0 <= v.i < 100000 {
        PaddedDigits(v.i, 5);
      } else if v.Int? && v.i >= 100000 {
        DigitsShort(v.i, 5);
        assert t == ToStr(v);
      } else {
        NotNumericPadded(v, 5);
      }
    }
  }

  // ------------------------------------------------------------ ABI, CAB, account number

  /**
   * A str code: digits, `width` long, not all zeros. The three checks run in
   * this order in validate_abi, validate_cab and validate_bank_account_number.
   */
  function StrCode(field: Field, s: string, width: nat): (r: Check)
    ensures r.Pass? <==> DigitCode(s, width)
  {
    if !IsNumeric(s) then Fail(UserError(field, NotDigits))
    else if |s| != width then Fail(UserError(field, WrongLength))
    else if DigitsValue(s) == 0 then Fail(UserError(field, AllZeros))
    else Pass
  }

  /**
   * validate_abi, validate_cab and validate_bank_account_number as written:
   * the int branch calls a validator again without the subject's name (and
   * the account number's calls validate_cab), so that call raises TypeError
   * before its body runs. `named` says whether the name was passed.
   */
  function CodeAsWritten(field: Field, v: Value, width: nat, named: bool): (r: Check)
    decreases if v.Str? then 0 else 1
  {
    if !named then Fail(MissingArgument)
    else if !Truthy(v) then Fail(UserError(field, Missing))
    else if IsInt(v) then CodeAsWritten(field, Str(RJust(ToStr(v), width, '0')), width, false)
    else if v.Str? then StrCode(field, v.s, width)
    else Fail(UserError(field, WrongType))
  }

  /** As written, a non-zero int code never validates: it raises TypeError. */
  lemma IntCodeRaises(field: Field, v: Value, width: nat)
    requires IsInt(v) && Truthy(v)
    ensures CodeAsWritten(field, v, width, true) == Fail(MissingArgument)
  {
  }

  /** The int branch as evidently intended: check the padded rendering with the same validator. */
  function Code(field: Field, v: Value, width: nat): (r: Check)
    decreases if v.Str? then 0 else 1
  {
    if !Truthy(v) then Fail(UserError(field, Missing))
    else if IsInt(v) then Code(field, Str(RJust(ToStr(v), width, '0')), width)
    else if v.Str? then StrCode(field, v.s, width)
    else Fail(UserError(field, WrongType))
  }

  /** On a str (and on anything falsy) both versions agree; they differ only on ints. */
  lemma CodeAgreesOnText(field: Field, v: Value, width: nat)
    requires v.Str? || !Truthy(v)
    ensures CodeAsWritten(field, v, width, true) == Code(field, v, width)
  {
  }

  /**
   * The intended validator accepts a str of exactly `width` digits other than
   * all zeros, and an int from 1 to 10 ** width - 1; a falsy value is missing.
   */
  lemma CodeAccepts(field: Field, v: Value, width: nat)
    ensures Code(field, v, width).Pass? <==>
      (v.Str? && DigitCode(v.s, width)) || (v.Int? && 1 <= v.i < Pow10(width))
    ensures !Truthy(v) ==> Code(field, v, width) == Fail(UserError(field, Missing))
  {
    if Truthy(v) && IsInt(v) {
      if v.Int? && 0 <= v.i < Pow10(width) {
        CodeInRange(field, v, width);
      } else if v.Int? && v.i >= Pow10(width) {
        CodeTooLong(field, v, width);
      } else {
        CodeNotNumeric(field, v, width);
      }
    }
  }

  /** An int from 1 to 10 ** width - 1 is accepted. */
  lemma CodeInRange(field: Field, v: Value, width: nat)
    requires v.Int? && 0 < v.i < Pow10(width)
    ensures Code(field, v, width) == Pass
  {
    assert width >= 1;
    assert ToStr(v) == NatToStr(v.i);
    var t := RJust(NatToStr(v.i), width, '0');
    PaddedDigits(v.i, width);
    assert DigitCode(t, width) && |t| == width;
    assert Code(field, v, width) == Code(field, Str(t), width);
    assert Code(field, Str(t), width) == StrCode(field, t, width);
  }

  /** An int with more than `width` digits is rejected. */
  lemma CodeTooLong(field: Field, v: Value, width: nat)
    requires v.Int? && v.i >= Pow10(width)
    ensures Code(field, v, width).Fail?
  {
    var t := RJust(ToStr(v), width, '0');
    DigitsShort(v.i, width);
    assert t == ToStr(v);
    assert !DigitCode(t, width);
    assert Code(field, v, width) == StrCode(field, t, width);
  }

  /** A negative int or `True` is rejected. */
  lemma CodeNotNumeric(field: Field, v: Value, width: nat)
    requires (v.Int? && v.i < 0) || v == Bool(true)
    ensures Code(field, v, width).Fail?
  {
    var t := RJust(ToStr(v), width, '0');
    NotNumericPadded(v, width);
    assert !DigitCode(t, width);
    assert Code(field, v, width) == StrCode(field, t, width);
  }

  /** validate_abi(513, name) raises TypeError as written; the intended check accepts it as 00513. */
  lemma Abi513()
    ensures CodeAsWritten(Abi, Int(513), 5, true) == Fail(MissingArgument)
    ensures Code(Abi, Int(513), 5) == Pass
  {
    CodeAccepts(Abi, Int(513), 5);
    assert Pow10(5) == 100000 by {
      assert Pow10(0) == 1;
      assert Pow10(1) == 10;
      assert Pow10(2) == 100;
      assert Pow10(3) == 1000;
      assert Pow10(4) == 10000;
    }
  }

  /** As written, a code passes exactly when it is a str of the width in digits, not all zeros. */
  lemma CodeAsWrittenAccepts(field: Field, v: Value, width: nat)
    ensures CodeAsWritten(field, v, width, true).Pass? <==> v.Str? && DigitCode(v.s, width)
  {
    if v.Str? || !Truthy(v) {
      CodeAgreesOnText(field, v, width);
      CodeAccepts(field, v, width);
    }
  }

  /**
   * The ABI, CAB and account checks a constructor runs: as validators.py has
   * them, or with the int branch as evidently intended.
   */
  datatype Checks = AsWritten | Intended

  function CheckCode(checks: Checks, field: Field, v: Value, width: nat): (r: Check) {
    match checks
    case AsWritten => CodeAsWritten(field, v, width, true)
    case Intended => Code(field, v, width)
  }

  /** validate_abi with the subject's name. */
  function ValidateAbi(checks: Checks, v: Value): (r: Check) {
    CheckCode(checks, Abi, v, 5)
  }

  /** validate_cab with the subject's name. */
  function ValidateCab(checks: Checks, v: Value): (r: Check) {
    CheckCode(checks, Cab, v, 5)
  }

  /** validate_bank_account_number: a twelve-digit account number. */
  function ValidateAccount(checks: Checks, v: Value): (r: Check) {
    CheckCode(checks, AccountNumber, v, 12)
  }
}
