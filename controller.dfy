/**
 * The page's controller: the submit handler with its button discipline, the
 * per-field error display, the result view and the two modal dialogs. DOM
 * elements become fields; event listeners become methods.
 */
module Controller {
  import opened Wrappers
  import opened Number
  import opened Validation
  import opened Pricing

  /** An element an event was dispatched to, seen only through its attribute names. */
  datatype Element = Element(attributes: set<string>)

  const CloseAttribute := "data-modal-close"

  /** A modal dialog: whether it has the `is-visible` class, and its `aria-hidden` attribute. */
  class Modal {
    var visible: bool
    var ariaHidden: string

    /** `aria-hidden` says the opposite of the visibility. */
    ghost predicate Valid()
      reads this
    {
      visible == (ariaHidden == "false")
    }

    constructor ()
      ensures Valid() && !visible && ariaHidden == "true"
    {
      visible, ariaHidden := false, "true";
    }

    /** `showModal` and `openModal`: the same state whatever the state before, so opening twice is opening once. */
    method Open()
      modifies this
      ensures Valid() && visible && ariaHidden == "false"
    {
      visible := true;
      ariaHidden := "false";
    }

    /** `hideModal` and `closeModal`: the same state whatever the state before. */
    method Close()
      modifies this
      ensures Valid() && !visible && ariaHidden == "true"
    {
      visible := false;
      ariaHidden := "true";
    }
  }

  /** Every field's error text empty. */
  function NoErrorText(): (m: map<Field, string>)
    ensures forall f :: f in m && m[f] == ""
  {
    AllFieldsComplete();
    map f | f in AllFields :: ""
  }

  /** `Object.keys(errors)`: the fields of `fs` that have an error; only membership is stated, not order. */
  function ErrorKeys(errors: map<Field, string>, fs: seq<Field>): (keys: seq<Field>)
    ensures forall f :: f in keys <==> f in fs && f in errors
  {
    if fs == [] then []
    else
      var rest := ErrorKeys(errors, fs[1..]);
      if fs[0] in errors then [fs[0]] + rest else rest
  }

  /** What the page shows after a submission that failed validation: each error's message by its field. */
  ghost predicate ShowsErrors(errorText: map<Field, string>, hasError: set<Field>, messages: map<Field, string>) {
    (forall f :: f in errorText && errorText[f] == (if f in messages then messages[f] else ""))
    && hasError == messages.Keys
  }

  /** The display after the messages of the fields in `shown` have been set on a cleared form. */
  ghost predicate ShowsSome(errorText: map<Field, string>, hasError: set<Field>, messages: map<Field, string>, shown: set<Field>) {
    shown <= messages.Keys
    && (forall f :: f in errorText && errorText[f] == (if f in shown then messages[f] else ""))
    && hasError == shown
  }

  /** Setting one more field's message extends the display by that field. */
  lemma ShowOneMore(errorText: map<Field, string>, hasError: set<Field>, messages: map<Field, string>,
                    shown: set<Field>, key: Field)
    requires ShowsSome(errorText, hasError, messages, shown)
    requires key in messages && messages[key] != ""
    ensures ShowsSome(errorText[key := messages[key]], hasError + {key}, messages, shown + {key})
  {
  }

  /** The fields among the first `i` keys. */
  ghost function Seen(keys: seq<Field>, i: nat): set<Field>
    requires i <= |keys|
  {
    if i == 0 then {} else Seen(keys, i - 1) + {keys[i - 1]}
  }

  /** Every one of the first `i` keys has been seen. */
  lemma {:induction false} SeenPrefix(keys: seq<Field>, i: nat)
    requires i <= |keys|
    ensures forall j :: 0 <= j < i ==> keys[j] in Seen(keys, i)
  {
    if i > 0 {
      SeenPrefix(keys, i - 1);
    }
  }

  /** Once every key has been set, and every field with a message is a key, the display shows exactly the messages. */
  lemma ShowsEvery(errorText: map<Field, string>, hasError: set<Field>, messages: map<Field, string>, keys: seq<Field>)
    requires ShowsSome(errorText, hasError, messages, Seen(keys, |keys|))
    requires forall f :: f in messages ==> f in keys
    ensures ShowsErrors(errorText, hasError, messages)
  {
    SeenPrefix(keys, |keys|);
    forall f | f in messages
      ensures f in Seen(keys, |keys|)
    {
      var j :| 0 <= j < |keys| && keys[j] == f;
    }
  }

  class FormController {
    /** The current contents of the form's inputs. */
    var values: FormValues
    /** `submitBtn.disabled`. */
    var submitDisabled: bool
    /** The text of each field's `.error-msg` element. */
    var errorText: map<Field, string>
    /** The fields whose group carries the `has-error` class. */
    var hasError: set<Field>
    /** The three read-only result fields; prices unformatted. */
    var resultEnergyLevel: string
    var resultOriginalPrice: real
    var resultDiscountedPrice: real
    const successModal: Modal
    const privacyModal: Modal

    ghost predicate Valid()
      reads this, successModal, privacyModal
    {
      successModal != privacyModal
      && (forall f :: f in errorText)
      && successModal.Valid() && privacyModal.Valid()
    }

    /** The page as loaded: empty form, no errors, both dialogs closed, the button enabled. */
    constructor ()
      ensures Valid() && fresh(successModal) && fresh(privacyModal)
      ensures values == EmptyForm && !submitDisabled
      ensures errorText == NoErrorText() && hasError == {}
      ensures !successModal.visible && !privacyModal.visible
    {
      values := EmptyForm;
      submitDisabled := false;
      errorText := NoErrorText();
      hasError := {};
      resultEnergyLevel, resultOriginalPrice, resultDiscountedPrice := "", 0.0, 0.0;
      successModal := new Modal();
      privacyModal := new Modal();
    }

    /** `resetErrors`: every error text emptied, `has-error` removed from every group. */
    method ResetErrors()
      requires Valid()
      modifies this
      ensures Valid()
      ensures errorText == NoErrorText() && hasError == {}
      ensures values == old(values) && submitDisabled == old(submitDisabled)
      ensures resultEnergyLevel == old(resultEnergyLevel)
      ensures resultOriginalPrice == old(resultOriginalPrice)
      ensures resultDiscountedPrice == old(resultDiscountedPrice)
    {
      errorText := NoErrorText();
      hasError := {};
    }

    /** `setFieldError`: the field's text becomes `message`; a non-empty message also marks its group. */
    method SetFieldError(f: Field, message: string)
      requires Valid()
      modifies this
      ensures Valid()
      ensures errorText == old(errorText)[f := message]
      ensures hasError == if message != "" then old(hasError) + {f} else old(hasError)
      ensures values == old(values) && submitDisabled == old(submitDisabled)
      ensures resultEnergyLevel == old(resultEnergyLevel)
      ensures resultOriginalPrice == old(resultOriginalPrice)
      ensures resultDiscountedPrice == old(resultDiscountedPrice)
    {
      errorText := errorText[f := message];
      if message != "" {
        hasError := hasError + {f};
      }
    }

    /** `Object.keys(errors).forEach(setFieldError)` on a cleared display, `messages` being `errors`. */
    method ShowErrors(messages: map<Field, string>)
      requires Valid() && errorText == NoErrorText() && hasError == {}
      requires forall f :: f in messages ==> messages[f] != ""
      modifies this
      ensures Valid() && ShowsErrors(errorText, hasError, messages)
      ensures values == old(values) && submitDisabled == old(submitDisabled)
      ensures resultEnergyLevel == old(resultEnergyLevel)
      ensures resultOriginalPrice == old(resultOriginalPrice)
      ensures resultDiscountedPrice == old(resultDiscountedPrice)
    {
      var keys := ErrorKeys(messages, AllFields);
      for i := 0 to |keys|
        invariant Valid()
        invariant ShowsSome(errorText, hasError, messages, Seen(keys, i))
        invariant values == old(values) && submitDisabled == old(submitDisabled)
        invariant resultEnergyLevel == old(resultEnergyLevel)
        invariant resultOriginalPrice == old(resultOriginalPrice)
        invariant resultDiscountedPrice == old(resultDiscountedPrice)
      {
        var key := keys[i];
        ShowOneMore(errorText, hasError, messages, Seen(keys, i), key);
        SetFieldError(key, messages[key]);
      }
      AllFieldsComplete();
      ShowsEvery(errorText, hasError, messages, keys);
    }

    /**
     * The submit listener. The button ends enabled on both paths. On failure only
     * the fields with errors show a message and nothing else changes; on success
     * no error is shown, the result view holds the tier label and both prices, the
     * success dialog is open and the form is empty.
     */
    method Submit()
      requires Valid()
      modifies this, successModal
      ensures Valid()
      ensures !submitDisabled
      ensures !ValidateForm(old(values)).isValid ==>
        && ShowsErrors(errorText, hasError, ErrorMessages(ValidateForm(old(values)).errors))
        && values == old(values)
        && successModal.visible == old(successModal.visible)
        && successModal.ariaHidden == old(successModal.ariaHidden)
        && resultEnergyLevel == old(resultEnergyLevel)
        && resultOriginalPrice == old(resultOriginalPrice)
        && resultDiscountedPrice == old(resultDiscountedPrice)
      ensures ValidateForm(old(values)).isValid ==>
        && errorText == NoErrorText() && hasError == {}
        && ParseFloat(old(values).price) == Some(resultOriginalPrice)
        && resultOriginalPrice > 0.0
        && resultEnergyLevel == DiscountFor(old(values).energyLevel).energyLabel
        && resultDiscountedPrice == DiscountedPrice(resultOriginalPrice, old(values).energyLevel)
        && 0.0 < resultDiscountedPrice < resultOriginalPrice
        && successModal.visible && successModal.ariaHidden == "false"
        && values == EmptyForm
    {
      submitDisabled := true;
      ResetErrors();
      var formData := values;
      var r := ValidateForm(formData);
      if !r.isValid {
        ShowErrors(ErrorMessages(r.errors));
        submitDisabled := false;
        return;
      }
      ShowSuccess(formData);
      submitDisabled := false;
    }

    /** The success path of the submit listener: the result view, the success dialog, `form.reset()`. */
    method ShowSuccess(formData: FormValues)
      requires Valid() && ValidateForm(formData).isValid
      modifies this, successModal
      ensures Valid()
      ensures errorText == old(errorText) && hasError == old(hasError)
      ensures submitDisabled == old(submitDisabled)
      ensures ParseFloat(formData.price) == Some(resultOriginalPrice) && resultOriginalPrice > 0.0
      ensures resultEnergyLevel == DiscountFor(formData.energyLevel).energyLabel
      ensures resultDiscountedPrice == DiscountedPrice(resultOriginalPrice, formData.energyLevel)
      ensures 0.0 < resultDiscountedPrice < resultOriginalPrice
      ensures successModal.visible && successModal.ariaHidden == "false"
      ensures values == EmptyForm
    {
      ValidFormHasPositivePrice(formData);
      var originalPrice := ParseFloat(formData.price).value;
      ShowResult(originalPrice, formData.energyLevel);
      values := EmptyForm;
    }

    /** The success path: fill the result view, open the success dialog. */
    method ShowResult(originalPrice: real, energyLevel: string)
      requires Valid() && originalPrice > 0.0
      modifies this, successModal
      ensures Valid()
      ensures resultEnergyLevel == DiscountFor(energyLevel).energyLabel
      ensures resultOriginalPrice == originalPrice
      ensures resultDiscountedPrice == DiscountedPrice(originalPrice, energyLevel)
      ensures successModal.visible && successModal.ariaHidden == "false"
      ensures values == old(values) && submitDisabled == old(submitDisabled)
      ensures errorText == old(errorText) && hasError == old(hasError)
    {
      var discount := DiscountFor(energyLevel);
      var discountedPrice := DiscountedPrice(originalPrice, energyLevel);
      resultEnergyLevel := discount.energyLabel;
      resultOriginalPrice := originalPrice;
      resultDiscountedPrice := discountedPrice;
      successModal.Open();
    }

    /** A click inside the success dialog closes it only when the target carries `data-modal-close`. */
    method SuccessModalClick(target: Option<Element>)
      requires Valid()
      modifies successModal
      ensures Valid()
      ensures target.Some? && CloseAttribute in target.value.attributes ==>
        !successModal.visible && successModal.ariaHidden == "true"
      ensures !(target.Some? && CloseAttribute in target.value.attributes) ==>
        successModal.visible == old(successModal.visible) && successModal.ariaHidden == old(successModal.ariaHidden)
    {
      if target.Some? && CloseAttribute in target.value.attributes {
        successModal.Close();
      }
    }

    /** Escape closes the success dialog when it is open; no other key, and no other dialog, is affected. */
    method KeyDown(key: string)
      requires Valid()
      modifies successModal
      ensures Valid()
      ensures key == "Escape" && old(successModal.visible) ==>
        !successModal.visible && successModal.ariaHidden == "true"
      ensures !(key == "Escape" && old(successModal.visible)) ==>
        successModal.visible == old(successModal.visible) && successModal.ariaHidden == old(successModal.ariaHidden)
    {
      if key == "Escape" && successModal.visible {
        successModal.Close();
      }
    }

    /** The privacy link opens the privacy dialog. */
    method PrivacyLinkClick()
      requires Valid()
      modifies privacyModal
      ensures Valid()
      ensures privacyModal.visible && privacyModal.ariaHidden == "false"
    {
      privacyModal.Open();
    }

    /** A click inside the privacy dialog closes it only when the target matches `[data-modal-close]`. */
    method PrivacyModalClick(target: Element)
      requires Valid()
      modifies privacyModal
      ensures Valid()
      ensures CloseAttribute in target.attributes ==>
        !privacyModal.visible && privacyModal.ariaHidden == "true"
      ensures CloseAttribute !in target.attributes ==>
        privacyModal.visible == old(privacyModal.visible) && privacyModal.ariaHidden == old(privacyModal.ariaHidden)
    {
      if CloseAttribute in target.attributes {
        privacyModal.Close();
      }
    }
  }
}
