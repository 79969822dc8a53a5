# Contact form, notifications and mobile menu of a static site

The site's `script.js` wires a handful of DOM event handlers. Four of them
hold logic that can be stated and proved, and this project models them with
the DOM replaced by plain state:

- **Validator** (`validateForm`, `isValidEmail`). Three checks run in order,
  and the first failure decides: a non-blank name, an address matching
  `^[^\s@]+@[^\s@]+\.[^\s@]+$`, a non-blank message. The regex is written out
  as a predicate on positions (`Email.IsValidEmail`). It is proved equal to a
  rule-based description: no whitespace, exactly one `@`, a non-empty local
  part, and a domain with a `.` that is neither its first nor its last
  character. `trim()` and `\s` use the ECMAScript whitespace set
  (`Text.IsWhitespace`).
- **Submit handler** (`initContactForm`). A class with the five inputs, the
  button's label and disabled flag, and the pending completion. The class is
  Idle, becomes Submitting on a valid submit, and `Complete` (the
  `setTimeout` callback) brings it back to Idle.
- **Notification presenter** (`showMessage`). The page's `.message` elements
  are a sequence of notices, each with an identity, and the hide timers still
  pending are a set. `Show` removes the first existing notice and appends the
  new one. `ExpireTimer(id)` removes only the notice with that identity.
- **Mobile menu** (`initNavigation` and the `resize` listener). The menu's
  `active` flag and the toggle icon's class name, with the toggle, link-click
  and resize events.

Modules: `Text` (text.dfy), `Email` (email.dfy), `Validation`
(validation.dfy), `Notifications` (notifications.dfy), `ContactForm`
(contact_form.dfy), `Navigation` (navigation.dfy).

I/O and the browser are replaced as follows:
- What the user types is the parameter of `Form.Edit`.
- The markup's initial button label is a constructor parameter.
- Whether the page has a `.menu-toggle` is the constant `Nav.hasToggle`.
- The viewport width is the parameter of `Nav.Resize`.
- Timers are explicit steps (`Form.Complete`, `Presenter.ExpireTimer`), with
  no clock.

Two behaviours of the code that the model keeps as written:
- A new notification does not cancel the previous one's hide timer. Each
  timer removes only its own element, and only while that element is
  attached, so a stale timer removes nothing
  (`Notifications.StaleTimerHarmless`, `Presenter.ExpireTimer`).
- `showMessage` removes only the first `.message` found, not all of them.
  `AfterShow` models exactly that. The at-most-one invariant holds because
  every notice is added through `Show`.

## Model

| member | source | states |
|---|---|---|
| `Text.FirstNonBlank` | script.js:80 | the scan from `lo` stops at the first non-whitespace character, or at the end; everything skipped is whitespace |
| `Text.LastNonBlank` | script.js:80 | the scan back from `hi` stops just after the last non-whitespace character at or above `lo`; everything skipped is whitespace |
| `Text.Trim` | script.js:80-92 | `trim()` gives a contiguous slice of the input with whitespace at neither end and only whitespace around it; it is empty exactly when the input is blank (the `!s.trim()` test) |
| `Email.IsValidEmail` | script.js:101-104 | `isValidEmail` returns true exactly when the address obeys the four rules: no whitespace, exactly one `@`, something before it, and after it a `.` that is neither the first nor the last character of the domain |
| `Email.PatternIffRules` | script.js:101-103 | the regex accepts an address iff it has no whitespace, exactly one `@`, a non-empty part before it, and after it a `.` that is neither the first nor the last character |
| `Email.MatchImpliesRules` | script.js:102 | a match at given `@` and `.` positions satisfies the four rules |
| `Email.RulesImplyMatch` | script.js:102 | the four rules yield a match at the `@` and the inner `.` |
| `Email.TwoAtsInvalid` | script.js:102 | an address with two `@` never matches |
| `Email.BlankEmailInvalid` | script.js:86-102 | an address that trims to empty never matches, so the `!data.email.trim()` guard is subsumed |
| `Email.ValidEmailIsTrimmed` | script.js:86-102 | a matching address equals its own trim: the regex sees the untrimmed value, so leading or trailing whitespace is rejected |
| `Email.ValidExample` | script.js:102 | `olena@example.com` and `a@b..c` match |
| `Email.InvalidWithoutAt` | script.js:102 | `x` does not match |
| `Email.InvalidWithTwoAts` | script.js:102 | `a@b@c.d` does not match |
| `Email.InvalidWithEmptyHost` | script.js:102 | `a@.com` does not match |
| `Email.InvalidWithLeadingSpace` | script.js:102 | ` a@b.c` does not match |
| `Validation.Validate` | script.js:78-98 | `validateForm` returns true iff the name is not blank, the address matches, and the message is not blank; otherwise MissingName iff the name is blank, InvalidEmail iff the name passed and the address fails, MissingMessage iff both passed and the message is blank |
| `Validation.BlankNameDecides` | script.js:80-83 | a blank name gives MissingName whatever the other four fields hold |
| `Validation.PhoneAndServiceIgnored` | script.js:78-97 | changing `phone` and `service` never changes the verdict |
| `Validation.EmailGuardRedundant` | script.js:86 | the email condition with the trim guard equals the regex test alone |
| `Validation.SpacesAreNoName` | script.js:80 | a name of spaces only is reported as missing |
| `Validation.ScenarioAccepted` | script.js:78-98 | name Olena, address olena@example.com and message Hello pass validation |
| `Validation.ScenarioRejected` | script.js:80-83 | an empty name with the address `x` gives MissingName |
| `Validation.PaddedEmailRejected` | script.js:86 | a valid address with a trailing space gives InvalidEmail |
| `Notifications.AfterShow` | script.js:109-134 | after a show, the first old element is gone, the rest keep their order, and the new one is last |
| `Notifications.ShowLeavesOnlyNew` | script.js:109-134 | on a page with at most one notification, a show leaves exactly the new one |
| `Notifications.Without` | script.js:146-149 | removing element `id` keeps exactly the elements with other ids, and never adds any |
| `Notifications.WithoutAt` | script.js:146-149 | on a page with distinct ids, removing the element at position `k` gives the page with exactly that position cut out, the others in their order |
| `Notifications.StaleTimerHarmless` | script.js:146-149 | a timer whose element is already gone leaves the page unchanged |
| `Notifications.OwnTimerRemoves` | script.js:146-149 | the timer of the notice on display removes it |
| `Notifications.Presenter.constructor` | script.js:107 | the page starts with no notification and no pending timer |
| `Notifications.Presenter.Show` | script.js:107-152 | keeps at most one notification; afterwards the page holds exactly the new notice with the given text and kind, under a fresh id that gets its own timer |
| `Notifications.Presenter.ExpireTimer` | script.js:143-151 | removes only the element the timer created, and nothing when that element is gone; the timer is consumed |
| `Notifications.ShowTwiceScenario` | script.js:107-152 | two shows in a row leave only the second notice; the first one's timer then keeps it, and the second one's timer removes it |
| `ContactForm.ErrorMessage` | script.js:81-93 | the text shown for a failed check is never the thank-you note |
| `ContactForm.ErrorMessagesDistinct` | script.js:81-93 | different failed checks show different texts |
| `ContactForm.Form.constructor` | script.js:41-44 | a loaded form: empty inputs, an enabled button with its markup label, nothing pending |
| `ContactForm.Form.Edit` | script.js:49-55 | the inputs take the typed values; the button and the pending state are untouched |
| `ContactForm.Form.Submit` | script.js:45-73 | returns the verdict on the snapshot of the inputs. On failure: one error notice with that check's text, the button unchanged and enabled, nothing pending, the inputs kept. On success: button disabled with the loading label, the name and the old label captured, no notice yet |
| `ContactForm.Form.Complete` | script.js:66-71 | thanks the name captured at submission (the only notice then shown), clears all five inputs, restores exactly the saved label, and enables the button |
| `ContactForm.AcceptedScenario` | script.js:45-71 | the Olena submission: loading label and disabled while pending; afterwards the original label, enabled, empty inputs, one success notice naming Olena |
| `ContactForm.RejectedScenario` | script.js:45-58 | the empty-name submission: one MissingName error notice, the button never disabled, no completion pending |
| `Navigation.IconFor` | script.js:21-25 | the icon is `fas fa-times` exactly when the menu is open and `fas fa-bars` exactly when it is closed |
| `Navigation.IconDeterminesState` | script.js:21-25 | the two icon class names differ, so the icon tells the menu state |
| `Navigation.Nav.constructor` | script.js:11-14 | a closed menu with the bars icon |
| `Navigation.Nav.Toggle` | script.js:16-26 | flips `active`; the icon is `fas fa-times` iff the menu is now active, else `fas fa-bars` |
| `Navigation.Nav.LinkClick` | script.js:30-36 | closes the menu; sets the bars icon when the toggle exists, else leaves it alone |
| `Navigation.Nav.Resize` | script.js:207-216 | a width above 768 closes the menu and sets the bars icon (when the toggle exists); any other resize changes nothing |
| `Navigation.NavScenario` | script.js:16-36 | open, close by a link, reopen; a resize to 768 keeps the menu open, and 769 closes it |

## Left out

- Smooth scrolling with the `offsetTop - 80` offset (script.js:155-169): depends on browser layout.
- Header restyling on scroll (script.js:172-181): style only, driven by the browser's scroll position.
- Reveal animation with IntersectionObserver (script.js:185-204): depends on a browser observer.
- `DOMContentLoaded` bootstrap (script.js:3-8): event registration only.
- `e.preventDefault()` (script.js:46): page navigation is not modelled.
- Inline styles, colours, transforms, opacity and transition timings (script.js:118-140).
- The 100 ms slide-in step (script.js:137-140): animation only.
- The 5000 ms hide timer and the 300 ms removal it schedules are one step, `ExpireTimer`.
- No delays are modelled (2000, 100, 5000, 300 ms): timers fire as explicit steps, in any order the caller chooses.
- The Ukrainian message texts are replaced by the `Message` datatype. The success note keeps only the submitter's name.
- The loading label is kept verbatim.
- ContactForm.Form.Complete: `contactForm.reset()` restores each input's markup default. The markup is not part of this model, so all five defaults are taken as empty strings. A `service` select may in fact fall back to its first option.
- ContactForm.Form.Submit: requires an enabled submit button, because the browser does not submit a form through a disabled submit button. A second submission while one is pending is therefore not modelled.
- A missing `#contactForm` element, which means no handler is registered, is not modelled.
- Navigation.Nav: assumes `.nav-links` and the toggle's `<i>` icon exist whenever the handlers run. Without them the source throws a TypeError, and that path is not modelled.
- A missing `.menu-toggle` is modelled, as `hasToggle`.
- Navigation.Nav.constructor: a closed menu with the bars icon is an assumption about the initial markup, which is not part of this model.
- JavaScript's regex engine is replaced by the explicit predicate `MatchesAt`. JavaScript strings are UTF-16 code units, while Dafny's `char` is a Unicode scalar value. Every whitespace code point, `@` and `.` lies in the Basic Multilingual Plane, and the halves of a surrogate pair match `[^\s@]` just as the whole character does. So the verdicts agree.
