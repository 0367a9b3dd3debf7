/**
 * `validateForm` of the subsidy form: seven field rules, each producing at most
 * one error, collected into a map from field to error.
 */
module Validation {
  import opened Wrappers
  import opened Text
  import opened Regex
  import opened Number

  datatype Field = Name | Phone | IdCard | EnergyLevel | Price | Address | AgreePrivacy

  /** The fields in the order the validator checks them. */
  const AllFields: seq<Field> := [Name, Phone, IdCard, EnergyLevel, Price, Address, AgreePrivacy]

  /** Every field is listed in `AllFields`. */
  lemma AllFieldsComplete()
    ensures forall f: Field :: f in AllFields
  {
    forall f: Field ensures f in AllFields {
      var i := match f
        case Name => 0 case Phone => 1 case IdCard => 2 case EnergyLevel => 3
        case Price => 4 case Address => 5 case AgreePrivacy => 6;
      assert AllFields[i] == f;
    }
  }

  /** The three kinds of message: the value is missing, too short, or malformed. */
  datatype ErrorKind = Required | TooShort | Invalid

  /** The values read from the form when it is submitted. */
  datatype FormValues = FormValues(
    name: string, phone: string, idCard: string, energyLevel: string,
    price: string, address: string, agreePrivacy: bool)

  /** What the form holds after `form.reset()`: every text empty, the box unticked. */
  const EmptyForm := FormValues("", "", "", "", "", "", false)

  /** The value of one field, as the rule for that field sees it. */
  datatype FieldValue = TextValue(text: string) | CheckValue(checked: bool)

  function Get(v: FormValues, f: Field): FieldValue {
    match f
    case Name => TextValue(v.name)
    case Phone => TextValue(v.phone)
    case IdCard => TextValue(v.idCard)
    case EnergyLevel => TextValue(v.energyLevel)
    case Price => TextValue(v.price)
    case Address => TextValue(v.address)
    case AgreePrivacy => CheckValue(v.agreePrivacy)
  }

  // ---- The two regular expressions, as written in the form's script ----

  const Digit: Re := Class(CharClass([('0', '9')]))

  /** `^1[3-9]\d{9}$` */
  const PhonePattern: Re := Concat(Lit('1'), Concat(Class(CharClass([('3', '9')])), Repeat(Digit, 9)))

  /** `^(\d{15}|\d{17}[0-9Xx])$` */
  const IdPattern: Re :=
    Alt(Repeat(Digit, 15), Concat(Repeat(Digit, 17), Class(CharClass([('0', '9'), ('X', 'X'), ('x', 'x')]))))

  /** A mainland-China mobile number: `1`, a digit from 3 to 9, then nine digits. */
  predicate IsMobileNumber(t: string) {
    |t| == 11 && t[0] == '1' && '3' <= t[1] <= '9'
    && forall i :: 2 <= i < 11 ==> IsDigit(t[i])
  }

  /** A resident ID number: 15 digits, or 17 digits and a final digit, `X` or `x`. */
  predicate IsIdNumber(t: string) {
    (|t| == 15 && forall i :: 0 <= i < 15 ==> IsDigit(t[i]))
    || (|t| == 18 && (forall i :: 0 <= i < 17 ==> IsDigit(t[i]))
        && (IsDigit(t[17]) || t[17] == 'X' || t[17] == 'x'))
  }

  lemma DigitClass(s: string, i: nat, j: nat)
    requires i <= j <= |s|
    ensures AllIn(s, i, j, Digit.k) <==> forall p :: i <= p < j ==> IsDigit(s[p])
  {
    assert forall c: char :: InClass(c, Digit.k) <==> IsDigit(c) by {
      forall c: char ensures InClass(c, Digit.k) <==> IsDigit(c) {
        if IsDigit(c) { assert ('0', '9') in Digit.k.ranges; }
      }
    }
  }

  /** The phone pattern accepts exactly the mobile numbers. */
  lemma PhonePatternMeaning(t: string)
    ensures Test(PhonePattern, t) <==> IsMobileNumber(t)
  {
    var n := |t|;
    var tail := Concat(Class(CharClass([('3', '9')])), Repeat(Digit, 9));
    ClassThen(CharClass([('1', '1')]), tail, t, 0, n);
    if 0 < n {
      ClassThen(CharClass([('3', '9')]), Repeat(Digit, 9), t, 1, n);
      if 1 < n {
        RepeatClass(Digit.k, 9, t, 2, n);
        DigitClass(t, 2, n);
        if InClass(t[0], CharClass([('1', '1')])) { assert t[0] == '1'; }
        if t[0] == '1' { assert ('1', '1') in CharClass([('1', '1')]).ranges; }
        if '3' <= t[1] <= '9' { assert ('3', '9') in CharClass([('3', '9')]).ranges; }
      }
    }
  }

  /** The ID pattern accepts exactly the 15- and 18-character ID numbers. */
  lemma IdPatternMeaning(t: string)
    ensures Test(IdPattern, t) <==> IsIdNumber(t)
  {
    var n := |t|;
    var last := CharClass([('0', '9'), ('X', 'X'), ('x', 'x')]);
    RepeatClass(Digit.k, 15, t, 0, n);
    DigitClass(t, 0, n);
    RepeatClassThen(Digit.k, 17, Class(last), t, 0, n);
    if 17 <= n {
      DigitClass(t, 0, 17);
      if n == 18 {
        var c := t[17];
        if IsDigit(c) { assert ('0', '9') in last.ranges; }
        if c == 'X' { assert ('X', 'X') in last.ranges; }
        if c == 'x' { assert ('x', 'x') in last.ranges; }
      }
    }
  }

  // ---- The seven field rules ----

  /** A required text whose trimmed JavaScript length must be at least `min`. */
  function LengthRule(s: string, min: nat): Option<ErrorKind> {
    var n := Utf16Length(Trim(s));
    if n == 0 then Some(Required) else if n < min then Some(TooShort) else None
  }

  function NameRule(s: string): Option<ErrorKind> {
    LengthRule(s, 2)
  }

  function PhoneRule(s: string): Option<ErrorKind> {
    var t := Trim(s);
    if Utf16Length(t) == 0 then Some(Required)
    else if !Test(PhonePattern, t) then Some(Invalid)
    else None
  }

  function IdCardRule(s: string): Option<ErrorKind> {
    var t := Trim(s);
    if Utf16Length(t) == 0 then Some(Required)
    else if !Test(IdPattern, t) then Some(Invalid)
    else None
  }

  function EnergyLevelRule(s: string): Option<ErrorKind> {
    if Utf16Length(Trim(s)) == 0 then Some(Required) else None
  }

  /** The price is not trimmed: only the empty string is missing; anything else must parse above zero. */
  function PriceRule(s: string): Option<ErrorKind> {
    if s == "" then Some(Required)
    else match ParseFloat(s)
      case None => Some(Invalid)
      case Some(x) => if x <= 0.0 then Some(Invalid) else None
  }

  function AddressRule(s: string): Option<ErrorKind> {
    LengthRule(s, 5)
  }

  function AgreePrivacyRule(checked: bool): Option<ErrorKind> {
    if !checked then Some(Required) else None
  }

  /** The rule of field `f`, applied to the submitted values. */
  function FieldRule(f: Field, v: FormValues): Option<ErrorKind> {
    match f
    case Name => NameRule(v.name)
    case Phone => PhoneRule(v.phone)
    case IdCard => IdCardRule(v.idCard)
    case EnergyLevel => EnergyLevelRule(v.energyLevel)
    case Price => PriceRule(v.price)
    case Address => AddressRule(v.address)
    case AgreePrivacy => AgreePrivacyRule(v.agreePrivacy)
  }

  /** The kinds of message each field can show. */
  predicate Admits(f: Field, k: ErrorKind) {
    k == Required
    || (k == TooShort && (f == Name || f == Address))
    || (k == Invalid && (f == Phone || f == IdCard || f == Price))
  }

  /** Every rule reports only the kinds of error its field admits. */
  lemma RulesAdmitted(v: FormValues)
    ensures forall f :: FieldRule(f, v).Some? ==> Admits(f, FieldRule(f, v).value)
  {
    forall f ensures FieldRule(f, v).Some? ==> Admits(f, FieldRule(f, v).value) {
      match f
      case Name => assert NameRule(v.name) != Some(Invalid);
      case Address => assert AddressRule(v.address) != Some(Invalid);
      case _ =>
    }
  }

  // ---- validateForm ----

  /** The `{ isValid, errors }` object `validateForm` returns. */
  datatype ValidationResult = ValidationResult(isValid: bool, errors: map<Field, ErrorKind>)

  /** `errors[f] = ...` when the rule reports an error, nothing otherwise. */
  function Record(errors: map<Field, ErrorKind>, f: Field, e: Option<ErrorKind>): map<Field, ErrorKind> {
    if e.Some? then errors[f := e.value] else errors
  }

  /** The errors found by checking the fields `fs` one after the other. */
  function Collect(v: FormValues, fs: seq<Field>): (e: map<Field, ErrorKind>)
    ensures forall f :: f in e <==> f in fs && FieldRule(f, v).Some?
    ensures forall f :: f in e ==> e[f] == FieldRule(f, v).value
  {
    if fs == [] then map[]
    else
      var f := fs[|fs| - 1];
      Record(Collect(v, fs[..|fs| - 1]), f, FieldRule(f, v))
  }

  /** `validateForm(values)`. */
  function ValidateForm(v: FormValues): (r: ValidationResult)
    ensures r.isValid <==> r.errors == map[]
    ensures forall f :: f in r.errors <==> FieldRule(f, v).Some?
    ensures forall f :: f in r.errors ==> r.errors[f] == FieldRule(f, v).value
    ensures forall f :: f in r.errors ==> Admits(f, r.errors[f])
  {
    var e := Collect(v, AllFields);
    AllFieldsComplete();
    RulesAdmitted(v);
    assert |e| == 0 ==> e == map[] by {
      if e != map[] { var f :| f in e; assert f in e.Keys; }
    }
    ValidationResult(|e| == 0, e)
  }

  // ---- Messages ----

  /** The message shown under field `f` for an error of kind `k`. */
  function Message(f: Field, k: ErrorKind): (m: string)
    requires Admits(f, k)
    ensures m != ""
  {
    match (f, k)
    case (Name, Required) => "请输入姓名"
    case (Name, _) => "姓名长度至少为 2 个字符"
    case (Phone, Required) => "请输入手机号码"
    case (Phone, _) => "请输入有效的中国大陆手机号码"
    case (IdCard, Required) => "请输入身份证号"
    case (IdCard, _) => "身份证号格式不正确"
    case (EnergyLevel, _) => "请选择能效类型"
    case (Price, Required) => "请输入全国统一价"
    case (Price, _) => "请输入大于 0 的有效金额"
    case (Address, Required) => "请输入详细地址"
    case (Address, _) => "详细地址至少为 5 个字符"
    case (AgreePrivacy, _) => "请勾选确认已阅读并同意隐私政策"
  }

  /** The `errors` object as the page holds it: each field with an error, mapped to its message. */
  function ErrorMessages(errors: map<Field, ErrorKind>): (m: map<Field, string>)
    requires forall f :: f in errors ==> Admits(f, errors[f])
    ensures m.Keys == errors.Keys
    ensures forall f :: f in m ==> m[f] == Message(f, errors[f]) && m[f] != ""
  {
    map f | f in errors :: Message(f, errors[f])
  }

  /** Different errors show different messages. */
  lemma MessagesDiffer(f1: Field, k1: ErrorKind, f2: Field, k2: ErrorKind)
    requires Admits(f1, k1) && Admits(f2, k2) && (f1, k1) != (f2, k2)
    ensures Message(f1, k1) != Message(f2, k2)
  {
  }

  // ---- What each rule means ----

  /** An error of a field depends on that field's value alone. */
  lemma ErrorsAreLocal(v1: FormValues, v2: FormValues, f: Field)
    requires Get(v1, f) == Get(v2, f)
    ensures (f in ValidateForm(v1).errors) == (f in ValidateForm(v2).errors)
    ensures f in ValidateForm(v1).errors ==> ValidateForm(v1).errors[f] == ValidateForm(v2).errors[f]
  {
  }

  /** A length rule: blank is missing, a trimmed JavaScript length below `min` is too short. */
  lemma LengthRuleMeaning(s: string, min: nat)
    requires min >= 1
    ensures LengthRule(s, min) == Some(Required) <==> AllWhitespace(s)
    ensures LengthRule(s, min) == Some(TooShort) <==> !AllWhitespace(s) && Utf16Length(Trim(s)) < min
    ensures LengthRule(s, min) == None <==> Utf16Length(Trim(s)) >= min
  {
    assert Utf16Length(Trim(s)) == 0 <==> Trim(s) == [];
  }

  /** A name is too short exactly when its trim is one character that is not a surrogate pair. */
  lemma NameRuleMeaning(s: string)
    ensures NameRule(s) == Some(Required) <==> AllWhitespace(s)
    ensures NameRule(s) == Some(TooShort) <==> |Trim(s)| == 1 && !IsAstral(Trim(s)[0])
    ensures NameRule(s) == None <==> |Trim(s)| >= 2 || (|Trim(s)| == 1 && IsAstral(Trim(s)[0]))
  {
    LengthRuleMeaning(s, 2);
    Utf16LengthOne(Trim(s));
  }

  /** An address is too short when its trim has JavaScript length 1 to 4. */
  lemma AddressRuleMeaning(s: string)
    ensures AddressRule(s) == Some(Required) <==> AllWhitespace(s)
    ensures AddressRule(s) == Some(TooShort) <==> 1 <= Utf16Length(Trim(s)) <= 4
    ensures AddressRule(s) == None <==> Utf16Length(Trim(s)) >= 5
  {
    LengthRuleMeaning(s, 5);
  }

  /** A blank phone is missing; otherwise it passes exactly when its trim is a mobile number. */
  lemma PhoneRuleMeaning(s: string)
    ensures PhoneRule(s) == Some(Required) <==> AllWhitespace(s)
    ensures PhoneRule(s) == None <==> IsMobileNumber(Trim(s))
    ensures PhoneRule(s) == Some(Invalid) <==> !AllWhitespace(s) && !IsMobileNumber(Trim(s))
  {
    PhonePatternMeaning(Trim(s));
    assert Utf16Length(Trim(s)) == 0 <==> Trim(s) == [];
  }

  /** A blank ID is missing; otherwise it passes exactly when its trim is an ID number. */
  lemma IdCardRuleMeaning(s: string)
    ensures IdCardRule(s) == Some(Required) <==> AllWhitespace(s)
    ensures IdCardRule(s) == None <==> IsIdNumber(Trim(s))
    ensures IdCardRule(s) == Some(Invalid) <==> !AllWhitespace(s) && !IsIdNumber(Trim(s))
  {
    IdPatternMeaning(Trim(s));
    assert Utf16Length(Trim(s)) == 0 <==> Trim(s) == [];
  }

  /** The energy level is only required to be non-blank; no code is rejected. */
  lemma EnergyLevelRuleMeaning(s: string)
    ensures EnergyLevelRule(s) == Some(Required) <==> AllWhitespace(s)
    ensures EnergyLevelRule(s) != Some(Required) ==> EnergyLevelRule(s) == None
  {
    assert Utf16Length(Trim(s)) == 0 <==> Trim(s) == [];
  }

  /** The price is missing only when empty, and passes exactly when it parses to a positive number. */
  lemma PriceRuleMeaning(s: string)
    ensures PriceRule(s) == Some(Required) <==> s == ""
    ensures PriceRule(s) == None <==> s != "" && ParseFloat(s).Some? && ParseFloat(s).value > 0.0
    ensures PriceRule(s) == Some(Invalid) <==> s != "" && (ParseFloat(s).None? || ParseFloat(s).value <= 0.0)
  {
  }

  /** When every field satisfies its rule, `validateForm` finds no error. */
  lemma AllRulesPass(v: FormValues)
    requires 2 <= Utf16Length(Trim(v.name))
    requires IsMobileNumber(Trim(v.phone))
    requires IsIdNumber(Trim(v.idCard))
    requires !AllWhitespace(v.energyLevel)
    requires ParseFloat(v.price).Some? && ParseFloat(v.price).value > 0.0
    requires 5 <= Utf16Length(Trim(v.address))
    requires v.agreePrivacy
    ensures ValidateForm(v).isValid
  {
    forall f ensures FieldRule(f, v).None? {
      match f
      case Name => LengthRuleMeaning(v.name, 2);
      case Phone => PhoneRuleMeaning(v.phone);
      case IdCard => IdCardRuleMeaning(v.idCard);
      case EnergyLevel => EnergyLevelRuleMeaning(v.energyLevel);
      case Price => PriceRuleMeaning(v.price);
      case Address => LengthRuleMeaning(v.address, 5);
      case AgreePrivacy =>
    }
  }

  /** A valid form holds a price that parses to a positive number. */
  lemma ValidFormHasPositivePrice(v: FormValues)
    requires ValidateForm(v).isValid
    ensures ParseFloat(v.price).Some? && ParseFloat(v.price).value > 0.0
  {
    assert FieldRule(Price, v).None?;
    PriceRuleMeaning(v.price);
  }
}
