/** Example inputs the form must accept or reject, checked against the model. */
module Scenarios {
  import opened Wrappers
  import opened Text
  import opened Number
  import opened Validation
  import opened Pricing
  import opened Controller

  lemma MobileSample()
    ensures IsMobileNumber("13800138000")
  {
  }

  /** `13800138000` is a valid phone number. */
  lemma ValidPhoneExample()
    ensures PhoneRule("13800138000") == None
  {
    TrimOfTrimmed("13800138000");
    MobileSample();
    PhoneRuleMeaning("13800138000");
  }

  /** `12345678901` is not: its second digit is 2. */
  lemma InvalidPhoneExample()
    ensures PhoneRule("12345678901") == Some(Invalid)
  {
    TrimOfTrimmed("12345678901");
    PhonePatternMeaning("12345678901");
  }

  lemma IdSample()
    ensures IsIdNumber("110101199003077777")
  {
  }

  lemma IdShort()
    ensures Trim("11010119900307777") == "11010119900307777"
    ensures !AllWhitespace("11010119900307777") && !IsIdNumber("11010119900307777")
  {
    TrimOfTrimmed("11010119900307777");
    assert !IsWhitespace("11010119900307777"[0]);
  }

  /** An 18-digit ID number passes. */
  lemma ValidIdExample()
    ensures IdCardRule("110101199003077777") == None
  {
    TrimOfTrimmed("110101199003077777");
    IdSample();
    IdCardRuleMeaning("110101199003077777");
  }

  /** Seventeen digits without a check character do not. */
  lemma InvalidIdExample()
    ensures IdCardRule("11010119900307777") == Some(Invalid)
  {
    IdShort();
    IdCardRuleMeaning("11010119900307777");
  }

  lemma DigitsSample()
    ensures AllDigits("1999") && DigitsValue("1999") == 1999
    ensures AllDigits("5") && FractionValue("5") == 0.5
  {
    assert "1999"[..3] == "199" && "199"[..2] == "19" && "19"[..1] == "1" && "1"[..0] == "";
    assert "5"[..0] == "";
    assert DigitsValue("5") == 5;
  }

  /** `1999.5` is read as 1999.5 and accepted. */
  lemma DecimalPriceExample()
    ensures ParseFloat("1999.5") == Some(1999.5) && PriceRule("1999.5") == None
  {
    DigitsSample();
    ParseDecimal("1999", "5", "");
    assert "1999" + "." + "5" + "" == "1999.5";
  }

  /** `0` is read as 0 and rejected. */
  lemma ZeroPriceExample()
    ensures ParseFloat("0") == Some(0.0) && PriceRule("0") == Some(Invalid)
  {
    ParseInteger("0", "");
    assert "0" + "" == "0";
  }

  /** `-5` is read as -5 and rejected. */
  lemma NegativePriceExample()
    ensures ParseFloat("-5") == Some(-5.0) && PriceRule("-5") == Some(Invalid)
  {
    ParseInteger("5", "");
    assert "5" + "" == "5";
    ParseMinus("5");
    assert "-" + "5" == "-5";
  }

  /** `abc` is NaN and rejected. */
  lemma TextPriceExample()
    ensures ParseFloat("abc") == None && PriceRule("abc") == Some(Invalid)
  {
    assert TrimStart("abc") == "abc";
  }

  /** `12abc` is read as 12, like `parseFloat` does, and accepted. */
  lemma TrailingTextPriceExample()
    ensures ParseFloat("12abc") == Some(12.0) && PriceRule("12abc") == None
  {
    assert "12"[..1] == "1" && "1"[..0] == "";
    ParseInteger("12", "abc");
    assert "12" + "abc" == "12abc";
  }

  /** After a failed submission, a valid one leaves no stale error on the page. */
  method RetryClearsErrors(c: FormController, bad: FormValues, good: FormValues)
    requires c.Valid() && !ValidateForm(bad).isValid && ValidateForm(good).isValid
    modifies c, c.successModal
    ensures c.Valid() && c.errorText == NoErrorText() && c.hasError == {}
    ensures c.successModal.visible && !c.submitDisabled
  {
    c.values := bad;
    c.Submit();
    assert c.hasError != {};
    c.values := good;
    c.Submit();
  }

  /** Escape closes the success dialog that a valid submission opened. */
  method EscapeAfterSuccess(c: FormController)
    requires c.Valid() && ValidateForm(c.values).isValid
    modifies c, c.successModal
    ensures c.Valid() && !c.successModal.visible && c.successModal.ariaHidden == "true"
  {
    c.Submit();
    c.KeyDown("Escape");
  }
}
