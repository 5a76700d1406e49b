# Portfolio page behaviour: contact form, mobile menu, link highlighting

A Dafny model of the interactive core of a static portfolio page, `script.js`:

- **Contact form.** Three fields (name, email, message) are each trimmed and checked on blur and on submit. A failing check shows its field's error element with a fixed text. A passing check hides the element. A submit attempt runs all three checks. Only when all three pass does it show the success banner and empty the inputs.
- **Mobile menu.** The menu button toggles the `active` class of itself and of the link list. A click on any navigation link removes the class from both.
- **Link highlighting.** On scroll, each section switches its navigation link's `active` class on exactly when the scroll offset lies in the section, with a 100-pixel allowance for the fixed header.

Modules, one concept each:

- `Text` (`text.dfy`) covers ECMAScript whitespace and `trim()`. `Trim` is executable. `IsTrimOf` is the specification it meets, and it has only one solution.
- `EmailPattern` (`email.dfy`) has three parts:
  - `MatchesRegex` is the language of `^[^\s@]+@[^\s@]+\.[^\s@]+$`;
  - `Matches` decides it without search, by splitting at the first `@`;
  - `EmailShape` is the same language in plain rules: no whitespace, exactly one `@` with something before it, and a `.` strictly inside the part after it.
- `Validation` (`validation.dfy`) holds the three field rules, their messages, and the effect of a rule's outcome on an error element.
- `ContactForm` (`contact_form.dfy`) is the form's state as a value (`Snapshot`), the pure effect of each handler on it, lemmas about those effects, and the `Form` class whose methods update the state in place.
- `MobileMenu` (`menu.dfy`) is the menu's two flags, the effect of each listener, and the `Menu` class.
- `Navigation` (`navigation.dfy`) is the highlighting fold over the sections, the loop that performs it on an array of link flags, and what the fold leaves in each flag.

What the error elements keep:

- `hideError` only removes the `show` class. The error text stays in the element, so a passing field keeps its last message text, hidden.
- A successful submit therefore leaves all three error elements hidden but not emptied.

## Model

| member | source | states |
|---|---|---|
| Text.IsWhitespace | script.js:122 | the ECMAScript WhiteSpace and LineTerminator code points, the one set that both `\s` in the pattern and `trim()` remove or forbid; `AllWhitespace` and `NoWhitespace` quantify it over a string |
| Text.Trim | script.js:126 | `value.trim()`: meets `IsTrimOf` (TrimIsTrimOf), whose only solution it is (TrimOfUnique) |
| Text.TrimIsTrimOf | script.js:126 | `value.trim()` removes exactly the leading and trailing whitespace and keeps the rest: the result lies between bounds with only whitespace outside them and none at either end |
| Text.TrimOfUnique | script.js:126 | the trimmed form of a string is unique, so the specification of trimming determines `Trim` |
| Text.TrimEmptyIffBlank | script.js:126-127 | the trimmed value has length 0 exactly when the raw value is all whitespace |
| Text.TrimIdempotent | script.js:126 | trimming a trimmed value changes nothing |
| Text.TrimUnblank | script.js:126 | a value without whitespace is its own trimmed form |
| EmailPattern.MatchesRegex | script.js:122 | the language of `^[^\s@]+@[^\s@]+\.[^\s@]+$`: a run, an '@', a run, a '.', a run, where a run is one or more characters that are neither whitespace nor '@'; restated as `EmailShape` by RegexIffShape |
| EmailPattern.Matches | script.js:144 | `emailRegex.test(email)`: splits at the first '@' and checks both sides; accepts exactly `MatchesRegex` (MatchesIffRegex) |
| EmailPattern.MatchesIffRegex | script.js:122 | splitting at the first `@` and checking both sides accepts exactly the strings the anchored pattern accepts |
| EmailPattern.RegexIffShape | script.js:122 | the pattern accepts exactly the strings with no whitespace, one `@` with a character before it, and a `.` with a character on each side after the `@` |
| EmailPattern.IndexOf | script.js:122 | the index found holds the character searched for and no earlier index does, or there is none |
| Validation.CheckName | script.js:125-137 | the branches of `validateName` on the trimmed value, without the display update; its cases are stated both ways by NameRule |
| Validation.CheckEmail | script.js:139-151 | the branches of `validateEmail` on the trimmed value, without the display update; its cases are stated both ways by EmailRule |
| Validation.CheckMessage | script.js:153-165 | the branches of `validateMessage` on the trimmed value, without the display update; its cases are stated both ways by MessageRule |
| Validation.NameRule | script.js:125-137 | `validateName` fails with "Name is required" exactly when the value is all whitespace, with "Name must be at least 2 characters" exactly when one character remains after trimming, and passes exactly when at least two remain |
| Validation.EmailRule | script.js:139-151 | `validateEmail` fails with "Email is required" exactly when the value is all whitespace, with "Please enter a valid email" exactly when it is not blank but its trimmed form does not have the address shape, and passes exactly when the trimmed form has that shape |
| Validation.MessageRule | script.js:153-165 | `validateMessage` fails with "Message is required" exactly when the value is all whitespace, with "Message must be at least 10 characters" exactly when one to nine characters remain, and passes exactly when at least ten remain |
| Validation.CheckFailsWithOwnMessage | script.js:125-165 | each field fails only with one of its own two texts, and every blank value fails |
| Validation.Reflect | script.js:167-174 | after a rule's outcome the element is shown exactly on failure; it then holds the failure's text, and on success it keeps its old text |
| Validation.ReflectIdempotent | script.js:167-174 | showing the same outcome twice leaves the element as showing it once |
| Validation.ReflectKeepsDisplayOk | script.js:167-174 | an element that is blank or holds one of its field's texts keeps that property after any validation |
| Validation.TwoLetterNamePasses | script.js:130-133 | "Al" passes the name rule |
| Validation.OneLetterNameIsTooShort | script.js:130-132 | "A" fails with "Name must be at least 2 characters" |
| Validation.PaddedNamePasses | script.js:126-133 | "  Al  " passes the name rule because it is trimmed first |
| Validation.AddressPasses | script.js:139-149 | "a@b.com" passes the email rule |
| Validation.UndottedAddressIsInvalid | script.js:144-146 | "a@b" fails with "Please enter a valid email" |
| Validation.SpacedAddressIsInvalid | script.js:144-146 | "a b@c.com" fails with "Please enter a valid email" |
| Validation.NineCharacterMessageIsTooShort | script.js:158-160 | a nine-character message fails with "Message must be at least 10 characters" |
| Validation.TenCharacterMessagePasses | script.js:158-163 | a ten-character message passes |
| ContactForm.Validated | script.js:125-174 | the state after one validator ran: its field's element reflects the rule's outcome and nothing else changes (ValidatedChangesOnlyItsField, ValidatedIdempotent) |
| ContactForm.Submitted | script.js:182-201 | the state after a submit attempt: all three validators ran, and only if all passed are the inputs emptied and the banner shown (SubmittedUpdatesEveryDisplay, SubmittedGate) |
| ContactForm.ShownErrorHasOwnText | script.js:167-174 | in every reachable state a shown error element holds one of its own field's texts |
| ContactForm.ValidatedChangesOnlyItsField | script.js:125-174 | a validator shows its field's element exactly when the rule fails, and then with the rule's text; on a pass the text stays. It changes no other element, no input value and not the banner |
| ContactForm.ValidatedIdempotent | script.js:177-179 | leaving a field a second time without typing changes nothing |
| ContactForm.SubmittedUpdatesEveryDisplay | script.js:186-188 | a submit attempt updates all three elements from their own rules, although an earlier field already failed |
| ContactForm.SubmittedGate | script.js:190-201 | when all three rules pass, a submit attempt empties all three inputs, hides all three errors and shows the banner; otherwise it keeps the inputs and the banner as they were |
| ContactForm.ValidatedKeepsSnapshotOk | script.js:125-174 | every error element stays blank or within its field's texts across a validation |
| ContactForm.SubmittedKeepsSnapshotOk | script.js:182-210 | every error element stays blank or within its field's texts across a submit attempt |
| ContactForm.Form.constructor | script.js:111-119 | the page loads with empty inputs, blank hidden error elements and a hidden banner |
| ContactForm.Form.Enter | script.js:112-114 | typing into one input replaces that value and nothing else |
| ContactForm.Form.ShowError | script.js:167-170 | `showError` sets the element's text and shows it; nothing else changes, and a text of the field's own keeps every element within its texts |
| ContactForm.Form.HideError | script.js:172-174 | `hideError` hides the element and keeps its text; nothing else changes, and every element stays within its texts |
| ContactForm.Form.ValidateName | script.js:125-137 | returns true exactly when the name rule passes, and leaves the state `Validated` gives |
| ContactForm.Form.ValidateEmail | script.js:139-151 | returns true exactly when the email rule passes, and leaves the state `Validated` gives |
| ContactForm.Form.ValidateMessage | script.js:153-165 | returns true exactly when the message rule passes, and leaves the state `Validated` gives |
| ContactForm.Form.Blur | script.js:177-179 | a blur runs the validator of that field only |
| ContactForm.Form.Submit | script.js:182-210 | reports success exactly when all three rules pass on the values as submitted, and leaves the state `Submitted` gives |
| ContactForm.Form.HideSuccess | script.js:198-200 | the deferred callback hides the banner and changes nothing else |
| ContactForm.BlurTwice | script.js:177-179 | two blurs in a row give the same verdict, and the state is that of one blur |
| MobileMenu.Toggled | script.js:26-29 | the button's listener toggles both classes: keeps them in step (ToggledKeepsSync), flips the menu open or closed (ToggledFlipsOpen), and undoes itself (ToggledTwice) |
| MobileMenu.Dismissed | script.js:32-37 | a link's listener removes both classes: the menu is closed whatever it was (DismissedCloses) |
| MobileMenu.ToggledKeepsSync | script.js:26-29 | a button click keeps the button and the link list in step, and out of step if they were |
| MobileMenu.ToggledFlipsOpen | script.js:26-29 | from a state in step, a button click opens a closed menu and closes an open one |
| MobileMenu.ToggledTwice | script.js:26-29 | two button clicks cancel out |
| MobileMenu.DismissedCloses | script.js:32-37 | a link click leaves the menu closed and in step whatever it was, and a second one changes nothing |
| MobileMenu.Menu.constructor | script.js:23-24 | the menu loads closed |
| MobileMenu.Menu.ToggleClick | script.js:26-29 | the button listener toggles both flags and keeps them in step |
| MobileMenu.Menu.LinkClick | script.js:32-37 | the link listener clears both flags |
| Navigation.InSection | script.js:220-226 | the test `scrollY > offsetTop - 100 && scrollY <= offsetTop - 100 + offsetHeight`; a section's link ends active exactly when it holds (HighlightedIffInView) |
| Navigation.Step | script.js:220-230 | the callback for one section sets its own link's flag to whether it holds the scroll offset, leaves every other flag alone, and does nothing for a section without a link |
| Navigation.Highlighted | script.js:217-232 | one pass over the sections keeps the number of links |
| Navigation.HighlightNavigation | script.js:217-232 | the loop over the sections leaves in the link array exactly what the fold `Highlighted` gives |
| Navigation.HighlightedUnnamed | script.js:223-229 | a link that no section names keeps its flag, as when `navLink` is missing |
| Navigation.HighlightedByLast | script.js:219-231 | a link that sections name is active exactly when the last of them holds the scroll offset `offsetTop - 100 < scrollY <= offsetTop - 100 + offsetHeight` |
| Navigation.HighlightedIffInView | script.js:225-229 | when sections name distinct links, a section's link is active exactly when the section holds the scroll offset |
| Navigation.AtMostOneHighlighted | script.js:217-232 | when sections do not overlap and name distinct links, at most one of their links is active, and it belongs to the section holding the offset |

## Left out

- ContactForm.Form.HideSuccess: the 5000 ms timer of script.js:198-200 has no clock in the model. The callback is a method to be called at any time. Because of that, which of two pending timers hides the banner first is not modelled.
- Element lookups by identifier and selector, and `e.preventDefault()`, are left out. The form's elements are the fields of one object, and the sections name their links by index.
- `console.log` of the submitted values (script.js:203-208) is left out.
- `contactForm.reset()` is modelled as setting every input to the empty string. The inputs are assumed to carry no default values.
- The page is assumed to load with empty error texts, hidden errors, a hidden banner and a closed menu.
- Lengths are counted in Unicode characters. JavaScript counts UTF-16 code units, so a character outside the Basic Multilingual Plane counts as two there.
- Navigation.InSection: scroll offsets and section positions are integers. `window.pageYOffset` may be fractional in a browser.
- The navbar's `scrolled` class and `lastScroll` (script.js:4-18) are left out: display only.
- Smooth scrolling to anchors (script.js:42-55) is left out: it is an animation request to the browser.
- The intersection-based reveal and skill-bar animators are left out: browser observers and styling.
- The parallax effect is left out: per-frame styling.
