/**
 * The three field rules of the contact form (script.js:125-165) and what a
 * rule's outcome does to the field's error display (script.js:167-174).
 * Every rule looks at the trimmed value only and reports the empty value
 * before anything else.
 */
module Validation {
  import opened Text
  import EmailPattern

  const NameRequired := "Name is required"
  const NameTooShort := "Name must be at least 2 characters"
  const EmailRequired := "Email is required"
  const EmailInvalid := "Please enter a valid email"
  const MessageRequired := "Message is required"
  const MessageTooShort := "Message must be at least 10 characters"

  const MinNameLength := 2
  const MinMessageLength := 10

  /** The three inputs of the form. */
  datatype Field = Name | Email | Message

  /** A validator's verdict: `Pass`, or `Fail` with the text it shows. */
  datatype Outcome = Pass | Fail(message: string)

  /** `validateName` without its display update. */
  function CheckName(value: string): Outcome {
    var name := Trim(value);
    if |name| == 0 then Fail(NameRequired)
    else if |name| < MinNameLength then Fail(NameTooShort)
    else Pass
  }

  /** `validateEmail` without its display update. */
  function CheckEmail(value: string): Outcome {
    var email := Trim(value);
    if |email| == 0 then Fail(EmailRequired)
    else if !EmailPattern.Matches(email) then Fail(EmailInvalid)
    else Pass
  }

  /** `validateMessage` without its display update. */
  function CheckMessage(value: string): Outcome {
    var message := Trim(value);
    if |message| == 0 then Fail(MessageRequired)
    else if |message| < MinMessageLength then Fail(MessageTooShort)
    else Pass
  }

  /**
   * A name is missing exactly when it is all whitespace, too short exactly
   * when one character is left after trimming, and passes exactly when at
   * least two are.
   */
  lemma NameRule(value: string)
    ensures CheckName(value).Pass? <==> |Trim(value)| >= MinNameLength
    ensures CheckName(value) == Fail(NameRequired) <==> AllWhitespace(value)
    ensures CheckName(value) == Fail(NameTooShort) <==> |Trim(value)| == 1
  {
    TrimEmptyIffBlank(value);
  }

  /**
   * An email is missing exactly when it is all whitespace, and otherwise
   * passes exactly when its trimmed form has the shape of an address.
   */
  lemma EmailRule(value: string)
    ensures CheckEmail(value).Pass? <==> EmailPattern.EmailShape(Trim(value))
    ensures CheckEmail(value) == Fail(EmailRequired) <==> AllWhitespace(value)
    ensures CheckEmail(value) == Fail(EmailInvalid) <==>
              !AllWhitespace(value) && !EmailPattern.EmailShape(Trim(value))
  {
    TrimEmptyIffBlank(value);
    EmailPattern.MatchesIffRegex(Trim(value));
    EmailPattern.RegexIffShape(Trim(value));
  }

  /**
   * A message is missing exactly when it is all whitespace, too short exactly
   * when one to nine characters are left after trimming, and passes exactly
   * when at least ten are.
   */
  lemma MessageRule(value: string)
    ensures CheckMessage(value).Pass? <==> |Trim(value)| >= MinMessageLength
    ensures CheckMessage(value) == Fail(MessageRequired) <==> AllWhitespace(value)
    ensures CheckMessage(value) == Fail(MessageTooShort) <==> 1 <= |Trim(value)| < MinMessageLength
  {
    TrimEmptyIffBlank(value);
  }

  /** The rule of field `f`. */
  function Check(f: Field, value: string): Outcome {
    match f
    case Name => CheckName(value)
    case Email => CheckEmail(value)
    case Message => CheckMessage(value)
  }

  /** The texts field `f` can show. */
  function Messages(f: Field): set<string> {
    match f
    case Name => {NameRequired, NameTooShort}
    case Email => {EmailRequired, EmailInvalid}
    case Message => {MessageRequired, MessageTooShort}
  }

  /** Each field fails only with its own messages, and an empty field always fails. */
  lemma CheckFailsWithOwnMessage(f: Field, value: string)
    ensures Check(f, value).Fail? ==> Check(f, value).message in Messages(f)
    ensures AllWhitespace(value) ==> Check(f, value).Fail?
  {
    NameRule(value);
    EmailRule(value);
    MessageRule(value);
  }

  /** The error element of a field: its text and whether the `show` class is on. */
  datatype ErrorDisplay = ErrorDisplay(text: string, shown: bool)

  /** The error element as the page loads it: empty and hidden. */
  const Blank := ErrorDisplay("", false)

  /**
   * The display after a validator with outcome `o` ran on display `d`:
   * `showError` on failure, `hideError` on success.
   */
  function Reflect(d: ErrorDisplay, o: Outcome): (r: ErrorDisplay)
    ensures r.shown <==> o.Fail?
    ensures r.text == if o.Fail? then o.message else d.text
  {
    match o
    case Fail(m) => ErrorDisplay(m, true)
    case Pass => d.(shown := false)
  }

  /** Showing the same outcome twice leaves the display as showing it once. */
  lemma ReflectIdempotent(d: ErrorDisplay, o: Outcome)
    ensures Reflect(Reflect(d, o), o) == Reflect(d, o)
  {
  }

  /** The displays a form can hold: blank, or one of the field's texts. */
  predicate DisplayOk(f: Field, d: ErrorDisplay) {
    d == Blank || d.text in Messages(f)
  }

  /** Validating keeps a display within its field's texts. */
  lemma ReflectKeepsDisplayOk(f: Field, d: ErrorDisplay, value: string)
    requires DisplayOk(f, d)
    ensures DisplayOk(f, Reflect(d, Check(f, value)))
  {
    CheckFailsWithOwnMessage(f, value);
  }

  // The documented cases of the three rules, one lemma each.

  lemma TwoLetterNamePasses()
    ensures CheckName("Al") == Pass
  {
    var v := "Al";
    TrimUnblank(v);
    NameRule(v);
    assert CheckName(v) == Pass;
  }

  lemma OneLetterNameIsTooShort()
    ensures CheckName("A") == Fail(NameTooShort)
  {
    var v := "A";
    TrimUnblank(v);
    NameRule(v);
    assert CheckName(v) == Fail(NameTooShort);
  }

  lemma PaddedNamePasses()
    ensures CheckName("  Al  ") == Pass
  {
    var v := "  Al  ";
    assert TrimBounds(v, 2, 4);
    TrimIsTrimOf(v);
    TrimOfUnique(Trim(v), v[2..4], v);
    NameRule(v);
    assert CheckName(v) == Pass;
  }

  lemma AddressPasses()
    ensures CheckEmail("a@b.com") == Pass
  {
    var v := "a@b.com";
    TrimUnblank(v);
    assert v[1] == '@' && v[1 + 1..][1] == '.';
    assert EmailPattern.HasInnerDot(v[1 + 1..]);
    assert forall k :: 0 <= k < |v| && v[k] == '@' ==> k == 1;
    assert EmailPattern.EmailShape(v);
    EmailRule(v);
    assert CheckEmail(v) == Pass;
  }

  lemma UndottedAddressIsInvalid()
    ensures CheckEmail("a@b") == Fail(EmailInvalid)
  {
    var v := "a@b";
    TrimUnblank(v);
    assert !EmailPattern.EmailShape(v) by {
      forall i | 0 < i < |v| && v[i] == '@' ensures !EmailPattern.HasInnerDot(v[i + 1..]) {
        assert i == 1;
      }
    }
    EmailRule(v);
    assert CheckEmail(v) == Fail(EmailInvalid);
  }

  lemma SpacedAddressIsInvalid()
    ensures CheckEmail("a b@c.com") == Fail(EmailInvalid)
  {
    var v := "a b@c.com";
    assert TrimBounds(v, 0, |v|);
    TrimIsTrimOf(v);
    TrimOfUnique(Trim(v), v[0..|v|], v);
    assert IsWhitespace(v[1]);
    EmailRule(v);
    assert CheckEmail(v) == Fail(EmailInvalid);
  }

  lemma NineCharacterMessageIsTooShort()
    ensures CheckMessage("123456789") == Fail(MessageTooShort)
  {
    var v := "123456789";
    TrimUnblank(v);
    MessageRule(v);
    assert CheckMessage(v) == Fail(MessageTooShort);
  }

  lemma TenCharacterMessagePasses()
    ensures CheckMessage("1234567890") == Pass
  {
    var v := "1234567890";
    TrimUnblank(v);
    MessageRule(v);
    assert CheckMessage(v) == Pass;
  }
}
