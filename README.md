# Portfolio page scripts — a Dafny model

This project models the decision logic of the two browser scripts behind a personal portfolio
site.

- **`js/form-handler.js`**, the contact form controller:
  - the email shape check;
  - the submit handler's gate and its outcome handling;
  - per-field validation classes;
  - the single on-screen notification.
- **`js/main.js`**, the page interactions:
  - the mobile navigation toggle and the header's scroll styling;
  - the certificate modal and the FAQ accordion;
  - the anchor-link scroll offset;
  - the project filter and the one-way reveal of animated elements.

The DOM is replaced as follows:

- **Elements whose classes or styles the scripts change** become classes with fields:
  - a form group's class list is a `set<string>`;
  - the submit button has a caption and a class set;
  - the page's notifications are a `seq` of notification objects;
  - the FAQ items' and the animated elements' flags are `array<bool>`;
  - project cards are objects with a class set and a display value.
- **Pure decisions** become functions: the email check, the submit gate, the field classifier and the anchor offset.
- **The network response** is an input: `Ok`, `NotOk` or `NetworkFailure`.

Files:

- `wrappers.dfy`: `Option`.
- `email.dfy`:
  - module `JsText`: JavaScript's white-space set, `trim`, counting and searching;
  - module `Email`: `IsValidEmail`, and its equivalence with the regular expression `^[^\s@]+@[^\s@]+\.[^\s@]+$`.
- `form_handler.dfy`: module `FormHandler`.
- `page_scripts.dfy`: module `PageScripts`.

`IsValidEmail` is written as the shape the pattern describes:

- exactly one `@`;
- no white space;
- a non-empty part before the `@`;
- a `.` after the `@` that is neither the first nor the last character of the domain.

`Email.ValidEmailIffPattern` proves that this predicate accepts exactly the strings in the pattern's language. That language, `MatchesEmailPattern`, is read directly off the regular expression.

The submit handler runs in two steps: a synchronous part, and a promise chain that runs once the request settles. The model keeps the two apart:

- `ContactPage.Submit` is the synchronous part: it captures the caption, runs the gate, and either rejects or enters the loading state and posts.
- `ContactPage.Settle` is the promise chain.

Keeping them apart is what exposes the overlapping-submission problem under "## Findings".

## Model

| member | source | states |
|---|---|---|
| `JsText.Trim` | js/form-handler.js:93 | The trimmed value is a slice of the input. Only white space was cut from either end, and the result is empty exactly when the input is all white space. |
| `Email.ValidEmailIffPattern` | js/form-handler.js:86-89 | `isValidEmail` accepts a string if and only if it matches `^[^\s@]+@[^\s@]+\.[^\s@]+$`. Acceptance means: exactly one `@`, no white space, a non-empty local part, and a domain with an inner `.`. |
| `Email.AcceptsPlainAddress` | js/form-handler.js:86-89 | "jane@x.com" is accepted. |
| `Email.RejectsStringWithoutAt` | js/form-handler.js:86-89 | "not-an-email" is rejected. |
| `FormHandler.SubmitGate` | js/form-handler.js:20-28 | Any empty field gives the "Please fill in all required fields." rejection. With all fields filled, a malformed email gives the "valid email address" rejection. The form is posted exactly when every field is non-empty and the email is valid. |
| `FormHandler.MissingFieldsTakePrecedence` | js/form-handler.js:20-28 | When a field is missing and the email is also malformed, the missing-field error is the one reported. |
| `FormHandler.GateScenarios` | js/form-handler.js:14-28 | The form Jane / jane@x.com / Hi / Hello is posted. The same form with "not-an-email" is rejected with the email message. |
| `FormHandler.GateSeesUntrimmedValues` | js/form-handler.js:20-23 | The gate tests raw, untrimmed values. A subject of one space passes it, yet `validateField` leaves that field undecorated because it trims first. |
| `FormHandler.Classify` | js/form-handler.js:92-112 | No class exactly when the value is all white space. `invalid` exactly for a non-blank email input whose trimmed value fails the email check. `valid` otherwise. |
| `FormHandler.Decorate` | js/form-handler.js:96-111 | After decoration, `valid` is present exactly for the valid decoration and `invalid` exactly for the invalid one. Every other class is kept as it was. |
| `FormHandler.ValidateField` | js/form-handler.js:92-112 | The group's new class set is the old one with its validation class replaced by the classifier's verdict on the trimmed value. |
| `FormHandler.OnFocus` | js/form-handler.js:68-70 | Focus adds `focused` to the enclosing group. |
| `FormHandler.OnBlur` | js/form-handler.js:72-76 | Blur removes `focused` only when the raw value is empty; otherwise the classes are unchanged. |
| `FormHandler.ClearValidationStates` | js/form-handler.js:115-120 | Every form group loses `focused`, `valid` and `invalid` and keeps all its other classes. |
| `FormHandler.Notification.constructor` | js/form-handler.js:131-159 | A new notification carries its text and type. Its background is green for `success`, red for `error` and purple for any other type. |
| `FormHandler.NotificationArea.Show` | js/form-handler.js:123-162 | The first existing notification is removed and one fresh notification is appended. If at most one existed before, exactly one (the new one) exists after. |
| `FormHandler.WithoutAppend` | js/form-handler.js:169-177 | Removing a notification from the list distributes over concatenation. So the notifications that remain keep their order and multiplicity, and `Without`'s own contract says exactly the removed one is gone. |
| `FormHandler.NotificationArea.Dismiss` | js/form-handler.js:169-177 | The delayed removal detaches the notification if it is still attached, and otherwise changes nothing. At most one notification stays on the page. |
| `FormHandler.ContactPage.Submit` | js/form-handler.js:9-41 | Nothing is posted exactly when the gate rejects. A rejection shows exactly one error notification with the gate's message and leaves the button and the POST log unchanged. Otherwise the captured caption is returned, the button shows the spinner and gains `loading`, and the form's values are posted once. |
| `FormHandler.ContactPage.Settle` | js/form-handler.js:42-59 | On an ok response: a success notification, the form emptied, and every group's validation classes cleared. On any other response or a failure: an error notification, with the form and groups untouched. In all cases the caption is restored and `loading` removed. |
| `FormHandler.ContactPage.SubmitWhenIdle` | js/form-handler.js:6-33 | The corrected handler: a submission while `loading` is present changes nothing. Otherwise it behaves as `Submit`, so a captured caption is never one taken during loading. |
| `FormHandler.ContactPage.SubmitAndSettle` | js/form-handler.js:6-60 | One complete submission with the corrected handler (`SubmitWhenIdle`, then `Settle`), not the handler as written. While `loading` is present, nothing changes and nothing is posted. From an idle button: the button ends with its original caption and classes, and exactly one notification is shown. A rejected form is not posted. An accepted form is posted once. Only on an ok response is the form reset and every group stripped of `focused`, `valid` and `invalid`; in every other case the groups keep their classes. |
| `FormHandler.DoubleSubmitAsWritten` | js/form-handler.js:9-58 | For any form that passes the gate, submitting twice before the first response (both ok, settled in order) posts twice and leaves the button showing the spinner caption. |
| `FormHandler.DoubleSubmitWhenIdle` | js/form-handler.js:9-58 | With the corrected handler, the same two submissions post once and restore the idle caption. |
| `PageScripts.NavMenu.ClickHamburger` | js/main.js:5-9 | The hamburger flips the menu's `active` flag. |
| `PageScripts.NavMenu.ClickLink` | js/main.js:12-16 | A nav-link click leaves the menu closed whatever its state, so repeated link clicks are idempotent. |
| `PageScripts.Header.OnScroll` | js/main.js:19-28 | The scrolled background and shadow are used exactly when scrollY > 100, strictly. At 100 and below, the default style applies. |
| `PageScripts.CertificateModal.ViewCertificate` | js/main.js:32-38 | The viewer's source becomes the given URL and the modal is displayed. |
| `PageScripts.CertificateModal.ClickClose` | js/main.js:41-43 | The close control hides the modal and leaves the viewer source alone. |
| `PageScripts.CertificateModal.ClickWindow` | js/main.js:46-51 | A click whose target is the modal backdrop hides it. Any other click leaves the display unchanged. |
| `PageScripts.AfterFaqClick` | js/main.js:59-69 | After a click on item i, item i is flipped and every other item is inactive. |
| `PageScripts.FaqClickKeepsOneOpen` | js/main.js:59-69 | Whatever the prior state, at most one item is active after any click. The clicked item ends active exactly when it was inactive. |
| `PageScripts.ClickOpenItemClosesAll` | js/main.js:60-68 | Clicking the item that is open leaves all items closed. |
| `PageScripts.FaqAccordion.ClickQuestion` | js/main.js:59-69 | The loop over the items, followed by the toggle, turns the flags into `AfterFaqClick` of the old flags. |
| `PageScripts.AnchorScrollTarget` | js/main.js:74-90 | There is no scroll for a bare "#" or a missing target. Otherwise the scroll target is rect.top + pageYOffset − headerHeight. |
| `PageScripts.AnchorTargetBelowHeader` | js/main.js:82-88 | The element's document position stays fixed, and its viewport top is given for a window scrolled to any offset. Once the window is scrolled to the computed target, the element's viewport top equals the header height. |
| `PageScripts.AnchorClickIsIdempotent` | js/main.js:82-88 | Clicking the same link again after the page has arrived computes the offset it is already at, so the page does not move a second time. |
| `PageScripts.AnchorTargetIndependentOfScroll` | js/main.js:82-88 | Two clicks on the same link that see the element at the same document position compute the same target, however far the page was scrolled. |
| `PageScripts.ProjectFilter` | js/main.js:94-104 | Every card ends shown or hidden. "all" shows every card, and any other filter shows exactly the cards whose class set contains it. |
| `PageScripts.RevealStep` | js/main.js:107-119 | After one scroll check, an element is revealed exactly when it already was or its top < innerHeight − 150. |
| `PageScripts.RevealedOnlyGrows` | js/main.js:107-119 | After any series of scroll checks, an element is revealed exactly when it started revealed or some check saw it in view. No scroll check un-reveals anything. The load handler's reset is `HideAll`, outside this lemma. |
| `PageScripts.RevealAnimator.AnimateOnScroll` | js/main.js:107-119 | The loop over the elements turns the revealed flags into `RevealStep` of the old flags. |
| `PageScripts.RevealAnimator.HideAll` | js/main.js:122-130 | The load handler starts every animated element hidden. |

## Findings

| source | as written | input that shows it | evidently intended | confidence | as-written member | corrected member |
|---|---|---|---|---|---|---|
| js/form-handler.js:10 | The caption to restore is read from the button at every submission. The button is not disabled while a request is in flight, so a second submission reads the spinner markup as its "original" caption. | A form that passes the gate, submitted twice before the first response arrives. Both responses are ok and settle in the order sent. The message is posted twice and the button is left showing "Sending...". | A submission made while a request is in flight is ignored, so the idle caption is restored and the message is posted once. | medium; not executed | `FormHandler.DoubleSubmitAsWritten` | `FormHandler.ContactPage.SubmitWhenIdle` |

`ContactPage.Submit` stays the model of the handler as written. `SubmitAndSettle` uses the corrected `SubmitWhenIdle`. `DoubleSubmitWhenIdle` proves that the same input restores the idle caption.

## Left out

- The `fetch` call, `FormData` and the promise machinery are network I/O. Their result is the `Response` input, and the POST body is recorded as the four field values.
- The `Accept: application/json` header and the form's `action` endpoint are not modelled.
- Timers are not modelled: the 100 ms slide-in, the 5-second dismissal delay, the 300 ms removal, and the 100 ms delay before the first reveal check. `NotificationArea.Dismiss` models only what the last timer does: it removes the element if it is still attached.
- Presentation is not modelled: the notification's CSS text, its `translateX` animation, the reveal's opacity, transform and transition strings, and the spinner markup beyond its use as a constant caption.
- Geometry (`scrollY`, `getBoundingClientRect().top`, `pageYOffset`) is exact `real` arithmetic, and `innerHeight` and `offsetHeight` are integers. Floating-point rounding is not modelled, and neither is the clamping of `scrollTo` at the page's ends or its smooth behaviour.
- `AnchorScrollTarget` takes the target as present or absent. An `href` that is not a valid selector, such as "#1a", makes `querySelector` throw; that case is not modelled.
- `console.error`, listener registration, `DOMContentLoaded` and element lookup are not modelled. Neither are the failures at first use when an element the scripts do not guard for is absent.
- `FormHandler.ContactPage.Settle`: `reset()` is modelled as emptying the four fields. That assumes the fields have no default values; the page's HTML is not part of this model.
- `FormHandler.OnBlur`: an empty required field is never marked invalid. The comment in the input handler (js/form-handler.js:100) says that an empty field gets its error when it loses focus, but the blur handler (js/form-handler.js:72-76) only removes `focused`. The model follows the code, and no member promises a blur-time error.
- The scroll listener (js/main.js:136) is already active before the `load` event fires. So a scroll before `load` can reveal elements that `HideAll` then hides again. `RevealedOnlyGrows` covers only the scroll checks, and the model does not order them against `load`.
- Characters are Unicode scalar values. JavaScript strings are UTF-16 code units, so lone surrogates are not modelled.
- The repository has a second, richer form-handler variant that is not modelled. It adds a disabled submit button, an inline success panel and icon-decorated notifications. The modelled js/form-handler.js has none of these; the missing disabled state is what the finding above is about.
