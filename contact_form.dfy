/**
 * The contact form's page state (script.js:111-210): the three input values,
 * the three error elements and the success banner, updated in place by the
 * blur and submit handlers. Element lookups by identifier are replaced by the
 * fields of one `Form` object. `Snapshot` is the value of that state, and
 * `Validated` and `Submitted` say what the handlers turn it into.
 */
module ContactForm {
  import opened Validation

  /** The form's state as a value. */
  datatype Snapshot = Snapshot(
    name: string, email: string, message: string,
    nameError: ErrorDisplay, emailError: ErrorDisplay, messageError: ErrorDisplay,
    successShown: bool)

  /** The page as it loads: empty inputs, blank hidden errors, no banner. */
  const Initial := Snapshot("", "", "", Blank, Blank, Blank, false)

  function ValueOf(s: Snapshot, f: Field): string {
    match f
    case Name => s.name
    case Email => s.email
    case Message => s.message
  }

  function DisplayOf(s: Snapshot, f: Field): ErrorDisplay {
    match f
    case Name => s.nameError
    case Email => s.emailError
    case Message => s.messageError
  }

  /** `s` with the error element of `f` replaced by `d`. */
  function WithDisplay(s: Snapshot, f: Field, d: ErrorDisplay): Snapshot {
    match f
    case Name => s.(nameError := d)
    case Email => s.(emailError := d)
    case Message => s.(messageError := d)
  }

  /** `s` with the input of `f` replaced by `v`. */
  function WithValue(s: Snapshot, f: Field, v: string): Snapshot {
    match f
    case Name => s.(name := v)
    case Email => s.(email := v)
    case Message => s.(message := v)
  }

  /** The state after the validator of `f` ran on `s`. */
  function Validated(s: Snapshot, f: Field): Snapshot {
    WithDisplay(s, f, Reflect(DisplayOf(s, f), Check(f, ValueOf(s, f))))
  }

  /** All three fields of `s` pass their rules. */
  predicate AllPass(s: Snapshot) {
    CheckName(s.name).Pass? && CheckEmail(s.email).Pass? && CheckMessage(s.message).Pass?
  }

  /** The state after a submit attempt on `s`. */
  function Submitted(s: Snapshot): Snapshot {
    var checked := Validated(Validated(Validated(s, Name), Email), Message);
    if AllPass(s) then checked.(name := "", email := "", message := "", successShown := true)
    else checked
  }

  /** Every error element is blank or holds one of its own field's texts. */
  predicate SnapshotOk(s: Snapshot) {
    DisplayOk(Name, s.nameError) && DisplayOk(Email, s.emailError) && DisplayOk(Message, s.messageError)
  }

  /**
   * Validating `f` shows its error exactly when its rule fails, with the
   * rule's text, and touches nothing else.
   */
  lemma ValidatedChangesOnlyItsField(s: Snapshot, f: Field)
    ensures DisplayOf(Validated(s, f), f).shown <==> Check(f, ValueOf(s, f)).Fail?
    ensures Check(f, ValueOf(s, f)).Fail? ==>
              DisplayOf(Validated(s, f), f).text == Check(f, ValueOf(s, f)).message
    ensures Check(f, ValueOf(s, f)).Pass? ==> DisplayOf(Validated(s, f), f).text == DisplayOf(s, f).text
    ensures forall g :: g != f ==> DisplayOf(Validated(s, f), g) == DisplayOf(s, g)
    ensures forall g :: ValueOf(Validated(s, f), g) == ValueOf(s, g)
    ensures Validated(s, f).successShown == s.successShown
  {
  }

  /** Running a validator again on the same value changes nothing. */
  lemma ValidatedIdempotent(s: Snapshot, f: Field)
    ensures Validated(Validated(s, f), f) == Validated(s, f)
  {
    match f
    case Name => ReflectIdempotent(s.nameError, CheckName(s.name));
    case Email => ReflectIdempotent(s.emailError, CheckEmail(s.email));
    case Message => ReflectIdempotent(s.messageError, CheckMessage(s.message));
  }

  /** A submit attempt updates all three error elements, whatever the others gave. */
  lemma SubmittedUpdatesEveryDisplay(s: Snapshot)
    ensures forall f :: DisplayOf(Submitted(s), f) == Reflect(DisplayOf(s, f), Check(f, ValueOf(s, f)))
  {
  }

  /**
   * Only when all three fields pass does a submit attempt show the banner
   * and empty the inputs; otherwise it keeps the inputs and the banner.
   */
  lemma SubmittedGate(s: Snapshot)
    ensures AllPass(s) ==> forall f :: ValueOf(Submitted(s), f) == "" && !DisplayOf(Submitted(s), f).shown
    ensures AllPass(s) ==> Submitted(s).successShown
    ensures !AllPass(s) ==> forall f :: ValueOf(Submitted(s), f) == ValueOf(s, f)
    ensures !AllPass(s) ==> Submitted(s).successShown == s.successShown
  {
    var s1 := Validated(s, Name);
    var s2 := Validated(s1, Email);
    var s3 := Validated(s2, Message);
    ValidatedChangesOnlyItsField(s, Name);
    ValidatedChangesOnlyItsField(s1, Email);
    ValidatedChangesOnlyItsField(s2, Message);
    if AllPass(s) {
      assert Submitted(s) == s3.(name := "", email := "", message := "", successShown := true);
      assert !s3.nameError.shown && !s3.emailError.shown && !s3.messageError.shown;
    } else {
      assert Submitted(s) == s3;
    }
  }

  /** Validating keeps every error element within its field's texts. */
  lemma ValidatedKeepsSnapshotOk(s: Snapshot, f: Field)
    requires SnapshotOk(s)
    ensures SnapshotOk(Validated(s, f))
  {
    ReflectKeepsDisplayOk(f, DisplayOf(s, f), ValueOf(s, f));
  }

  /** In a state whose error elements are within their texts, a shown element holds one of its own field's texts. */
  lemma ShownErrorHasOwnText(s: Snapshot, f: Field)
    requires SnapshotOk(s) && DisplayOf(s, f).shown
    ensures DisplayOf(s, f).text in Messages(f)
  {
    assert DisplayOf(s, f) != Blank;
  }

  /** Submitting keeps every error element within its field's texts. */
  lemma SubmittedKeepsSnapshotOk(s: Snapshot)
    requires SnapshotOk(s)
    ensures SnapshotOk(Submitted(s))
  {
    var s1 := Validated(s, Name);
    ValidatedKeepsSnapshotOk(s, Name);
    var s2 := Validated(s1, Email);
    ValidatedKeepsSnapshotOk(s1, Email);
    ValidatedKeepsSnapshotOk(s2, Message);
  }

  class Form {
    /** `nameInput.value`, `emailInput.value`, `messageInput.value`. */
    var name: string
    var email: string
    var message: string
    /** The elements `nameError`, `emailError`, `messageError`. */
    var nameError: ErrorDisplay
    var emailError: ErrorDisplay
    var messageError: ErrorDisplay
    /** Whether `formSuccess` has the `show` class. */
    var successShown: bool

    function State(): Snapshot
      reads this
    {
      Snapshot(name, email, message, nameError, emailError, messageError, successShown)
    }

    ghost predicate Valid()
      reads this
    {
      SnapshotOk(State())
    }

    constructor ()
      ensures Valid() && State() == Initial
    {
      name, email, message := "", "", "";
      nameError, emailError, messageError := Blank, Blank, Blank;
      successShown := false;
    }

    /** The user types `value` into field `f`. */
    method Enter(f: Field, value: string)
      requires Valid()
      modifies this
      ensures Valid() && State() == WithValue(old(State()), f, value)
    {
      match f
      case Name => name := value;
      case Email => email := value;
      case Message => message := value;
    }

    /** `showError(element, text)`: set the text and add the `show` class. */
    method ShowError(f: Field, text: string)
      modifies this
      ensures State() == WithDisplay(old(State()), f, ErrorDisplay(text, true))
      ensures old(Valid()) && text in Messages(f) ==> Valid()
    {
      match f
      case Name => nameError := ErrorDisplay(text, true);
      case Email => emailError := ErrorDisplay(text, true);
      case Message => messageError := ErrorDisplay(text, true);
    }

    /** `hideError(element)`: remove the `show` class; the text stays. */
    method HideError(f: Field)
      modifies this
      ensures State() == WithDisplay(old(State()), f, DisplayOf(old(State()), f).(shown := false))
      ensures old(Valid()) ==> Valid()
    {
      match f
      case Name => nameError := nameError.(shown := false);
      case Email => emailError := emailError.(shown := false);
      case Message => messageError := messageError.(shown := false);
    }

    /** `validateName()`. */
    method ValidateName() returns (ok: bool)
      requires Valid()
      modifies this
      ensures Valid()
      ensures ok <==> CheckName(name).Pass?
      ensures State() == Validated(old(State()), Name)
    {
      ValidatedKeepsSnapshotOk(State(), Name);
      var o := CheckName(name);
      if o.Fail? {
        ShowError(Name, o.message);
        ok := false;
      } else {
        HideError(Name);
        ok := true;
      }
    }

    /** `validateEmail()`. */
    method ValidateEmail() returns (ok: bool)
      requires Valid()
      modifies this
      ensures Valid()
      ensures ok <==> CheckEmail(email).Pass?
      ensures State() == Validated(old(State()), Email)
    {
      ValidatedKeepsSnapshotOk(State(), Email);
      var o := CheckEmail(email);
      if o.Fail? {
        ShowError(Email, o.message);
        ok := false;
      } else {
        HideError(Email);
        ok := true;
      }
    }

    /** `validateMessage()`. */
    method ValidateMessage() returns (ok: bool)
      requires Valid()
      modifies this
      ensures Valid()
      ensures ok <==> CheckMessage(message).Pass?
      ensures State() == Validated(old(State()), Message)
    {
      ValidatedKeepsSnapshotOk(State(), Message);
      var o := CheckMessage(message);
      if o.Fail? {
        ShowError(Message, o.message);
        ok := false;
      } else {
        HideError(Message);
        ok := true;
      }
    }

    /** The blur listener of field `f`: runs that field's validator only. */
    method Blur(f: Field) returns (ok: bool)
      requires Valid()
      modifies this
      ensures Valid()
      ensures ok <==> Check(f, ValueOf(State(), f)).Pass?
      ensures State() == Validated(old(State()), f)
    {
      match f
      case Name => ok := ValidateName();
      case Email => ok := ValidateEmail();
      case Message => ok := ValidateMessage();
    }

    /**
     * The submit listener: runs all three validators, then, only if all
     * passed, shows the banner and resets the inputs to empty.
     */
    method Submit() returns (sent: bool)
      requires Valid()
      modifies this
      ensures Valid()
      ensures sent <==> AllPass(old(State()))
      ensures State() == Submitted(old(State()))
    {
      ghost var s0 := State();
      var isNameValid := ValidateName();
      ValidatedChangesOnlyItsField(s0, Name);
      var isEmailValid := ValidateEmail();
      ValidatedChangesOnlyItsField(Validated(s0, Name), Email);
      var isMessageValid := ValidateMessage();
      sent := isNameValid && isEmailValid && isMessageValid;
      if sent {
        successShown := true;
        name, email, message := "", "", "";
      }
    }

    /** The deferred callback that removes the banner's `show` class. */
    method HideSuccess()
      requires Valid()
      modifies this
      ensures Valid() && State() == old(State()).(successShown := false)
    {
      successShown := false;
    }
  }

  /** Leaving a field twice in a row: the second run agrees with the first and changes nothing. */
  method BlurTwice(form: Form, f: Field) returns (first: bool, second: bool)
    requires form.Valid()
    modifies form
    ensures form.Valid()
    ensures first == second
    ensures form.State() == Validated(old(form.State()), f)
  {
    first := form.Blur(f);
    ValidatedIdempotent(old(form.State()), f);
    second := form.Blur(f);
  }
}
