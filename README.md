# Energy-subsidy application form, modelled in Dafny

The form's script collects seven inputs: name, mobile number, resident ID number, energy-efficiency level, unified retail price, address and a privacy-consent box. It validates them in the browser. When they are valid, it shows the subsidised price in a success dialog. The price is the unified price times 80% for tier 1 and times 85% for tier 2.

This project models that script:
- **Validation.** The seven field rules and `validateForm`, which collects them into an error map.
- **Pricing.** The tier and discount rule of the submit handler.
- **Display state.** The page's display state as two classes:
  - `Modal` holds the `is-visible` class and the `aria-hidden` attribute of a dialog.
  - `FormController` holds the form values, the submit button's `disabled` flag, each field's error text, the set of groups marked `has-error`, the three result fields and the two dialogs.
- **Handlers.** Every listener becomes a method.

JavaScript primitives the rules depend on are modelled exactly enough to state what the rules mean:
- `String.prototype.trim` uses the ECMAScript WhiteSpace and LineTerminator set.
- `.length` counts UTF-16 code units, so a character outside the Basic Multilingual Plane counts 2.
- The two regular expressions are data, given to a small matcher.
- `parseFloat` reads the decimal prefix of its argument.

Modules:
- `Wrappers`: `Option`, where `None` stands for NaN.
- `Text`: trim and UTF-16 length.
- `Regex`: a regular-expression datatype and its whole-string match.
- `Number`: `parseFloat`.
- `Validation`: field rules, `validateForm` and messages.
- `Pricing`: tier rule.
- `Controller`: dialogs, error display and the submit handler.
- `Scenarios`: example inputs the form must accept or reject, checked against the model.

The code also has some consequences that are easy to miss:
- The price is not trimmed. A price of only spaces therefore gets the "enter a valid amount" message, not the "required" one.
- `parseFloat` accepts a numeric prefix, so `12abc` is a valid price of 12.
- An energy-level code other than `1` or `2` keeps the 80% rate with an empty label.

## Model

| member | source | states |
|---|---|---|
| Text.Trim | script.js:55 | the result is the unique trim of the input: blanks outside, non-blank ends; it is empty exactly when the input is all blanks |
| Text.TrimOfIsUnique | script.js:55 | at most one string is a trim of a given string, so the trim specification determines `trim()` |
| Text.TrimOfTrimmed | script.js:64 | a string with non-blank ends is its own trim |
| Text.TrimIdempotent | script.js:64 | trimming twice equals trimming once |
| Text.TrimStartSkipsBlank | script.js:82 | a blank prefix does not change what is left after skipping leading blanks |
| Text.TrimStart | script.js:82 | the text after the leading blanks `parseFloat` skips; no contract of its own, TrimStartSkipsBlank and Number.ParseSkipsBlank state what skipping means |
| Text.Utf16Length | script.js:57 | the JavaScript length lies between the character count and twice it, and equals the character count exactly when no character is astral |
| Text.Utf16LengthOne | script.js:57 | JavaScript length 1 means exactly one character, not astral |
| Regex.ClassThen | script.js:61 | a one-character class followed by a pattern matches exactly when the first character is in the class and the rest matches |
| Regex.RepeatClass | script.js:61 | `c{n}` matches a span exactly when it has length n and every character is in the class |
| Regex.RepeatClassThen | script.js:68 | `c{n}` followed by a pattern matches exactly when the first n characters are in the class and the rest matches |
| Regex.Matches | script.js:61 | whether a pattern matches a span of the text; no contract of its own, ClassThen, RepeatClass and RepeatClassThen characterise it |
| Regex.Test | script.js:64 | `pattern.test(t)` for a pattern anchored by `^` and `$`: a match of the whole text; PhonePatternMeaning and IdPatternMeaning state what it accepts for the two patterns |
| Number.ReadLiteral | script.js:82 | a decimal literal is read exactly when the text starts with a digit, or with a point followed by a digit; the value read is non-negative |
| Number.ParseFloat | script.js:82 | NaN exactly when no literal follows the blanks and the sign; the value is non-negative without a minus sign and non-positive with one |
| Number.FractionValue | script.js:82 | digits after the point are worth at least 0 and less than 1 |
| Number.DigitsValue | script.js:82 | the value of a run of decimal digits, below 10 to the power of its length; the price examples pin it on concrete inputs |
| Number.ParseInteger | script.js:82 | digits followed by text that does not continue the number parse to the digits' value |
| Number.ParseDecimal | script.js:82 | `a.d` followed by non-digits parses to the value of a plus the fraction d |
| Number.ParseSkipsBlank | script.js:82 | leading whitespace never changes the result |
| Number.ParseMinus | script.js:82 | a minus sign negates the value, and NaN stays NaN |
| Number.ParsePlus | script.js:82 | a plus sign changes nothing |
| Validation.AllFieldsComplete | script.js:52-96 | the validator checks every one of the seven fields |
| Validation.PhonePatternMeaning | script.js:61 | `^1[3-9]\d{9}$` accepts exactly 11 characters: `1`, then a digit from 3 to 9, then nine digits |
| Validation.IdPatternMeaning | script.js:68 | the ID pattern accepts exactly 15 digits, or 17 digits followed by a digit, `X` or `x` |
| Validation.LengthRule | script.js:55-59 | the shared shape of the name and address rules; LengthRuleMeaning states its meaning |
| Validation.NameRule | script.js:55-59 | the name rule; NameRuleMeaning states its meaning |
| Validation.PhoneRule | script.js:61-66 | the phone rule; PhoneRuleMeaning states its meaning |
| Validation.IdCardRule | script.js:68-73 | the ID rule; IdCardRuleMeaning states its meaning |
| Validation.EnergyLevelRule | script.js:75-77 | the energy-level rule; EnergyLevelRuleMeaning states its meaning |
| Validation.PriceRule | script.js:79-86 | the price rule; PriceRuleMeaning states its meaning |
| Validation.AddressRule | script.js:88-92 | the address rule; AddressRuleMeaning states its meaning |
| Validation.AgreePrivacyRule | script.js:94-96 | the consent rule: "required" when the box is unticked, no error when ticked; AllRulesPass and ValidateForm use it |
| Validation.FieldRule | script.js:52-96 | the rule of each field applied to that field's value; ErrorsAreLocal states that it reads nothing else |
| Validation.RulesAdmitted | script.js:54-96 | name and address never report "invalid"; only name and address report "too short"; only phone, ID and price report "invalid" |
| Validation.Collect | script.js:52-96 | after the listed fields are checked, a field has an error exactly when it is listed and its rule fails, and that error is the rule's |
| Validation.ValidateForm | script.js:52-102 | `isValid` holds exactly when the error map is empty; a field is in the map exactly when its rule fails, with the rule's error |
| Validation.Message | script.js:56-95 | every admitted error has a non-empty message; the messages are the script's own strings |
| Validation.ErrorMessages | script.js:56-95 | the `errors` object maps exactly the failing fields to their non-empty messages |
| Validation.MessagesDiffer | script.js:56-95 | two different errors never show the same message |
| Validation.ErrorsAreLocal | script.js:52-96 | whether a field has an error, and which error, depends only on that field's own value |
| Validation.LengthRuleMeaning | script.js:55-59 | a length-checked text is required exactly when blank, too short exactly when its trimmed JavaScript length is 1 to min-1, and passes exactly at min or more |
| Validation.NameRuleMeaning | script.js:55-59 | a name is required exactly when blank, and too short exactly when its trim is one non-astral character |
| Validation.AddressRuleMeaning | script.js:88-92 | an address is required exactly when blank, too short exactly at trimmed JavaScript length 1 to 4, and passes from 5 |
| Validation.PhoneRuleMeaning | script.js:61-66 | a phone is required exactly when blank, passes exactly when its trim is a mobile number, and is invalid otherwise |
| Validation.IdCardRuleMeaning | script.js:68-73 | an ID is required exactly when blank, passes exactly when its trim is a 15- or 18-character ID number, and is invalid otherwise |
| Validation.EnergyLevelRuleMeaning | script.js:75-77 | the energy level is required exactly when blank; no other value is rejected |
| Validation.PriceRuleMeaning | script.js:79-86 | the price is required exactly when empty (untrimmed); it passes exactly when `parseFloat` gives a value above 0; it is invalid otherwise, including NaN |
| Validation.AllRulesPass | script.js:52-102 | a form whose every field meets its rule is valid |
| Validation.ValidFormHasPositivePrice | script.js:79-86 | on a valid form `parseFloat(price)` is a number above 0 |
| Pricing.DiscountFor | script.js:142-153 | the rate is strictly between 0 and 1; it is 85% exactly for code `2`; the label is empty exactly for codes other than `1` and `2` |
| Pricing.DiscountedPrice | script.js:155 | for a positive price the subsidised price is positive and strictly below it, between 80% and 85% of it |
| Pricing.TierTable | script.js:142-153 | code `1` gives 4/5 with the tier-1 label, code `2` gives 17/20 with the tier-2 label, any other code gives 4/5 with no label |
| Pricing.ThousandExample | script.js:155 | 1000 becomes 800 at tier 1 and 850 at tier 2 |
| Controller.Modal.constructor | script.js:3 | a dialog starts hidden, with `aria-hidden` "true" |
| Controller.Modal.Open | script.js:8-12 | `showModal`/`openModal`: visible and `aria-hidden` "false" whatever the state before, so opening twice equals opening once |
| Controller.Modal.Close | script.js:14-18 | `hideModal`/`closeModal`: hidden and `aria-hidden` "true" whatever the state before; idempotent |
| Controller.NoErrorText | script.js:21-24 | the cleared display: every field's error text is empty |
| Controller.ErrorKeys | script.js:131 | `Object.keys(errors)` lists exactly the fields that have an error |
| Controller.ShowOneMore | script.js:131-133 | setting one more field's non-empty message extends the display by exactly that field |
| Controller.ShowsEvery | script.js:131-133 | once every key has been set, the display shows exactly the error messages |
| Controller.FormController.constructor | script.js:2-6 | the page as loaded: empty form, no error shown, both dialogs hidden, button enabled |
| Controller.FormController.ResetErrors | script.js:20-30 | every error text is emptied and every group loses `has-error`; nothing else changes |
| Controller.FormController.SetFieldError | script.js:32-50 | the field's text becomes the message; the field's group is marked only when the message is non-empty; nothing else changes |
| Controller.FormController.ShowErrors | script.js:131-134 | on a cleared display, each field with an error shows its message and is marked; every other field shows nothing and is unmarked |
| Controller.FormController.Submit | script.js:109-166 | the button ends enabled on both paths; on failure only the failing fields show messages and the form, the dialog and the results are untouched; on success no error shows, the results hold the tier label and the parsed and discounted prices (the latter positive and below the former), the success dialog is open and the form is empty |
| Controller.FormController.ShowSuccess | script.js:141-161 | for a valid form, fills the results from the parsed price and tier, opens the success dialog and empties the form |
| Controller.FormController.ShowResult | script.js:141-159 | the result fields hold the tier label, the price and the discounted price, and the success dialog is open |
| Controller.FormController.SuccessModalClick | script.js:170-175 | a click closes the success dialog exactly when there is a target carrying `data-modal-close`; otherwise nothing changes |
| Controller.FormController.KeyDown | script.js:177-181 | Escape closes the success dialog when it is open; any other key, or Escape on a hidden dialog, changes nothing |
| Controller.FormController.PrivacyLinkClick | script.js:202 | the privacy dialog opens |
| Controller.FormController.PrivacyModalClick | script.js:204-209 | a click closes the privacy dialog exactly when the target carries `data-modal-close`; otherwise nothing changes |
| Scenarios.ValidPhoneExample | script.js:61-66 | `13800138000` passes the phone rule |
| Scenarios.InvalidPhoneExample | script.js:61-66 | `12345678901` is an invalid phone |
| Scenarios.ValidIdExample | script.js:68-73 | `110101199003077777` passes the ID rule |
| Scenarios.InvalidIdExample | script.js:68-73 | a 17-digit ID is invalid |
| Scenarios.DecimalPriceExample | script.js:79-86 | `1999.5` parses to 1999.5 and passes |
| Scenarios.ZeroPriceExample | script.js:79-86 | `0` parses to 0 and is invalid |
| Scenarios.NegativePriceExample | script.js:79-86 | `-5` parses to -5 and is invalid |
| Scenarios.TextPriceExample | script.js:79-86 | `abc` is NaN and invalid |
| Scenarios.TrailingTextPriceExample | script.js:79-86 | `12abc` parses to 12 and passes |
| Scenarios.RetryClearsErrors | script.js:109-166 | after a failed submission, a valid one leaves no stale error, opens the dialog and re-enables the button |
| Scenarios.EscapeAfterSuccess | script.js:177-181 | Escape closes the dialog a valid submission opened |

## Left out

- `formatPrice` and `toFixed(2)` (script.js:104-106): the result fields hold the exact unformatted prices, because decimal rounding of doubles is outside the model.
- IEEE floating point: prices and rates are exact reals, so `0.8` and `0.85` are exactly 4/5 and 17/20, and no product is rounded.
- Number.ParseFloat: the exponent part and `Infinity` are not read, and such inputs parse only up to their decimal prefix. The validator therefore differs on them. `"Infinity"` is a valid price in the script but NaN, so invalid, in the model. `"1e-400"` parses to 0 in the script, so it is invalid there, but to 1 in the model, so it is valid there. `"1e3"` is 1000 in the script and 1 in the model.
- Strings are sequences of Unicode scalar values. A JavaScript string can hold a lone UTF-16 surrogate, which a Dafny `char` cannot represent, so such inputs are outside the model.
- Controller.ErrorKeys: states which fields `Object.keys(errors)` lists, not their order. The display after the loop does not depend on the order, because each field is set once.
- The DOM lookups and their null guards (`if (submitBtn)`, `if (!modal)`, `if (errorEl)`, `if (inputEl && inputEl.parentElement …)`): every element is taken to exist.
- `setFieldError`'s mapping from field name to element (`.error-msg[data-error-for=…]`, the input's parent group, the `.agree-row`): a field owns one error text and one group.
- `event.preventDefault()` and the registration of listeners: each listener is a method called directly.
- Controller.FormController.Submit: the button is disabled during the handler. Nothing can observe that in between, because the handler runs to completion, so only the final enabled state is stated.
- `form.reset()`: modelled as every text becoming empty and the box unticked, which is what an unconfigured form resets to. Default values in the page's HTML are not part of this model.
- Form values that are `undefined` or `null`: the model reads every text input as a string and the box as a boolean, as `form.x.value` and `form.agreePrivacy && form.agreePrivacy.checked` deliver.
- CSS classes other than `is-visible` and `has-error`, and the page's HTML and styles: not part of this model.
