/** The contact form controller of js/form-handler.js: the submit gate, the submission and its
    outcome, per-field decoration of the form groups, and the single on-screen notification. */
module FormHandler {
  import opened Wrappers
  import opened JsText
  import opened Email

  /** The four required fields, as read from the form when it is submitted. */
  datatype FormValues = FormValues(name: string, email: string, subject: string, message: string)

  /** What `reset()` leaves in the four fields, none of which has a default value. */
  const EmptyForm := FormValues("", "", "", "")

  const MissingFieldsText := "Please fill in all required fields."
  const InvalidEmailText := "Please enter a valid email address."
  const ThankYouText := "Thank you for your message! I will get back to you soon."
  const SendErrorText := "Sorry, there was an error sending your message. Please try again later."

  /** The submit button's label while a request is in flight (a spinner icon and "Sending..."). */
  const SendingLabel := "<i class=\"fas fa-spinner fa-spin\"></i> Sending..."

  const FocusedClass := "focused"
  const ValidClass := "valid"
  const InvalidClass := "invalid"
  const LoadingClass := "loading"

  /** The decorations that a successful submission clears from every form group. */
  const ValidationClasses := {FocusedClass, ValidClass, InvalidClass}

  const SuccessGreen := "#28a745"
  const ErrorRed := "#dc3545"
  const DefaultPurple := "#6c63ff"

  // ---------------------------------------------------------------------------------------
  // The submit gate
  // ---------------------------------------------------------------------------------------

  /** The raw test `name && email && subject && message`: every field is a non-empty string.
      A field holding only white space passes it. */
  predicate AllFilled(f: FormValues)
  {
    f.name != "" && f.email != "" && f.subject != "" && f.message != ""
  }

  /** What the submit handler decides before any network activity. */
  datatype Gate = Rejected(text: string) | Post

  /** The checks of the submit handler, in their fixed order: missing fields first, then the
      email shape; only a form that passes both is posted. */
  function SubmitGate(f: FormValues): (g: Gate)
    ensures !AllFilled(f) ==> g == Rejected(MissingFieldsText)
    ensures AllFilled(f) && !IsValidEmail(f.email) ==> g == Rejected(InvalidEmailText)
    ensures g == Post <==> AllFilled(f) && IsValidEmail(f.email)
  {
    if !AllFilled(f) then Rejected(MissingFieldsText)
    else if !IsValidEmail(f.email) then Rejected(InvalidEmailText)
    else Post
  }

  /** Two scenarios: a complete form with a plain address is posted, and the
      same form with "not-an-email" in the email field is rejected with the email message. */
  lemma GateScenarios()
    ensures SubmitGate(FormValues("Jane", "jane@x.com", "Hi", "Hello")) == Post
    ensures SubmitGate(FormValues("Jane", "not-an-email", "Hi", "Hello")) == Rejected(InvalidEmailText)
  {
    AcceptsPlainAddress();
    RejectsStringWithoutAt();
  }

  /** A missing field is reported even when the email is malformed too: the empty-field check
      takes precedence. */
  lemma MissingFieldsTakePrecedence(f: FormValues)
    requires !AllFilled(f) && !IsValidEmail(f.email)
    ensures SubmitGate(f) == Rejected(MissingFieldsText)
    ensures SubmitGate(f) != Rejected(InvalidEmailText)
  {
  }

  // ---------------------------------------------------------------------------------------
  // Per-field decoration
  // ---------------------------------------------------------------------------------------

  /** Whether the input's `type` attribute is "email". */
  datatype InputType = EmailType | OtherType

  /** The validation class `validateField` leaves on a form group. */
  datatype Decoration = Undecorated | Valid | Invalid

  /** The decision of `validateField` on the trimmed value: no class for an empty value,
      the email check for an email input, "valid" for anything else. */
  function Classify(value: string, kind: InputType): (d: Decoration)
    ensures d == Undecorated <==> AllWhitespace(value)
    ensures d == Invalid <==> !AllWhitespace(value) && kind == EmailType && !IsValidEmail(Trim(value))
  {
    var v := Trim(value);
    if v == "" then Undecorated
    else if kind == EmailType && !IsValidEmail(v) then Invalid
    else Valid
  }

  /** The submit gate tests the raw values while `validateField` trims first: a subject of a
      single space gets a form posted, yet leaves its own field undecorated. */
  lemma GateSeesUntrimmedValues()
    ensures SubmitGate(FormValues("Jane", "jane@x.com", " ", "Hello")) == Post
    ensures Classify(" ", OtherType) == Undecorated
  {
    var f := FormValues("Jane", "jane@x.com", " ", "Hello");
    AcceptsPlainAddress();
    assert AllFilled(f);
    assert AllWhitespace(" ");
  }

  /** A form group's classes after its validation classes are replaced by decoration `d`. */
  function Decorate(classes: set<string>, d: Decoration): (r: set<string>)
    ensures ValidClass in r <==> d == Valid
    ensures InvalidClass in r <==> d == Invalid
    ensures forall c :: c != ValidClass && c != InvalidClass ==> (c in r <==> c in classes)
  {
    var rest := classes - {ValidClass, InvalidClass};
    match d
    case Undecorated => rest
    case Valid => rest + {ValidClass}
    case Invalid => rest + {InvalidClass}
  }

  /** The element wrapping an input, decorated with state classes. */
  class FormGroup {
    var classes: set<string>

    constructor (classes: set<string>)
      ensures this.classes == classes
    {
      this.classes := classes;
    }
  }

  /** `validateField`, run on every keystroke in an input of type `kind` holding `value`. */
  method ValidateField(value: string, kind: InputType, group: FormGroup)
    modifies group
    ensures group.classes == Decorate(old(group.classes), Classify(value, kind))
  {
    group.classes := group.classes - {ValidClass, InvalidClass};
    var v := Trim(value);
    if v == "" {
      return;
    }
    if kind == EmailType {
      if IsValidEmail(v) {
        group.classes := group.classes + {ValidClass};
      } else {
        group.classes := group.classes + {InvalidClass};
      }
    } else {
      group.classes := group.classes + {ValidClass};
    }
  }

  /** The focus handler marks the enclosing group as focused. */
  method OnFocus(group: FormGroup)
    modifies group
    ensures group.classes == old(group.classes) + {FocusedClass}
  {
    group.classes := group.classes + {FocusedClass};
  }

  /** The blur handler drops "focused" only when the raw value is empty. */
  method OnBlur(value: string, group: FormGroup)
    modifies group
    ensures group.classes == if value == "" then old(group.classes) - {FocusedClass} else old(group.classes)
  {
    if value == "" {
      group.classes := group.classes - {FocusedClass};
    }
  }

  /** `clearValidationStates`: strips focused, valid and invalid from every form group.
      A group listed twice is simply cleared twice. */
  method ClearValidationStates(groups: seq<FormGroup>)
    modifies set g | g in groups
    ensures forall g :: g in groups ==> g.classes == old(g.classes) - ValidationClasses
  {
    for i := 0 to |groups|
      invariant forall g :: g in groups ==>
        g.classes == if g in groups[..i] then old(g.classes) - ValidationClasses else old(g.classes)
    {
      groups[i].classes := groups[i].classes - ValidationClasses;
    }
    assert groups[..|groups|] == groups;
  }

  // ---------------------------------------------------------------------------------------
  // Notifications
  // ---------------------------------------------------------------------------------------

  /** The banner colour for a notification type. */
  function BackgroundFor(kind: string): string
  {
    if kind == "success" then SuccessGreen
    else if kind == "error" then ErrorRed
    else DefaultPurple
  }

  /** A notification element: its text, its type and its background colour. */
  class Notification {
    const text: string
    const kind: string
    const background: string

    constructor (text: string, kind: string)
      ensures this.text == text && this.kind == kind
      ensures kind == "success" ==> background == SuccessGreen
      ensures kind == "error" ==> background == ErrorRed
      ensures kind != "success" && kind != "error" ==> background == DefaultPurple
    {
      this.text := text;
      this.kind := kind;
      this.background := BackgroundFor(kind);
    }
  }

  /** The notifications left after the first one in document order is removed. */
  function DropFirst(s: seq<Notification>): seq<Notification>
  {
    if s == [] then [] else s[1..]
  }

  /** `s` without the element `n`; `WithoutAppend` shows that the others keep their order. */
  function Without(s: seq<Notification>, n: Notification): (r: seq<Notification>)
    ensures |r| <= |s|
    ensures multiset(r) == multiset(s)[n := 0]
    ensures n !in r
    ensures forall i :: 0 <= i < |r| ==> r[i] in s
    ensures forall i :: 0 <= i < |s| && s[i] != n ==> s[i] in r
    ensures n !in s ==> r == s
  {
    if s == [] then []
    else
      assert s == [s[0]] + s[1..];
      if s[0] == n then Without(s[1..], n)
      else [s[0]] + Without(s[1..], n)
  }

  /** Removal works element by element: it distributes over concatenation, so what remains
      keeps its order and multiplicity. */
  lemma {:induction false} WithoutAppend(a: seq<Notification>, b: seq<Notification>, n: Notification)
    ensures Without(a + b, n) == Without(a, n) + Without(b, n)
  {
    if a == [] {
      assert a + b == b;
    } else {
      assert (a + b)[1..] == a[1..] + b;
      WithoutAppend(a[1..], b, n);
    }
  }

  /** The page's notification elements, in document order. */
  class NotificationArea {
    var shown: seq<Notification>

    /** At most one notification is on the page. */
    ghost predicate Valid()
      reads this
    {
      |shown| <= 1
    }

    constructor ()
      ensures shown == [] && Valid()
    {
      shown := [];
    }

    /** The page now shows `before` minus its first notification, followed by one new
        notification with this text and type. */
    ghost predicate Announced(before: seq<Notification>, text: string, kind: string)
      reads this
    {
      |shown| > 0 && shown == DropFirst(before) + [shown[|shown| - 1]] &&
      shown[|shown| - 1].text == text && shown[|shown| - 1].kind == kind &&
      shown[|shown| - 1].background == BackgroundFor(kind)
    }

    /** `showNotification`: removes the existing notification, then appends a new one. */
    method Show(text: string, kind: string) returns (n: Notification)
      modifies this
      ensures fresh(n) && n !in old(shown)
      ensures Announced(old(shown), text, kind) && shown[|shown| - 1] == n
      ensures old(Valid()) ==> shown == [n]
    {
      if shown != [] {
        shown := shown[1..];
      }
      n := new Notification(text, kind);
      shown := shown + [n];
    }

    /** The delayed dismissal: removes `n` if it is still attached. */
    method Dismiss(n: Notification)
      modifies this
      ensures shown == Without(old(shown), n)
      ensures n !in shown
      ensures old(Valid()) ==> Valid()
    {
      if n in shown {
        shown := Without(shown, n);
      }
    }
  }

  // ---------------------------------------------------------------------------------------
  // Submission
  // ---------------------------------------------------------------------------------------

  /** What the POST produced: an ok response, any other status, or a network failure. */
  datatype Response = Ok | NotOk | NetworkFailure

  /** The button with class `btn-submit`. */
  class SubmitButton {
    var caption: string
    var classes: set<string>

    constructor (caption: string, classes: set<string>)
      ensures this.caption == caption && this.classes == classes
    {
      this.caption := caption;
      this.classes := classes;
    }
  }

  /** The contact form with its submit button, its form groups and the page's notifications.
      `posts` records the body of every POST issued, oldest first. */
  class ContactPage {
    var form: FormValues
    var posts: seq<FormValues>
    const groups: seq<FormGroup>
    const button: SubmitButton
    const body: NotificationArea

    ghost predicate Valid()
      reads this, body
    {
      body.Valid()
    }

    constructor (form: FormValues, groups: seq<FormGroup>, button: SubmitButton, body: NotificationArea)
      ensures this.form == form && this.groups == groups && this.button == button && this.body == body
      ensures posts == []
    {
      this.form := form;
      this.groups := groups;
      this.button := button;
      this.body := body;
      posts := [];
    }

    /** What the synchronous part of the submit handler does to the page, given the caption it
        captured: either the gate's rejection is shown and nothing else changes, or the button
        enters the loading state and the form's values are posted. */
    twostate predicate SubmitEffect(new pending: Option<string>)
      reads this, button, body
    {
      && (pending.Some? <==> SubmitGate(form) == Post)
      && (pending.Some? ==>
            pending.value == old(button.caption) && posts == old(posts) + [form] &&
            button.caption == SendingLabel && button.classes == old(button.classes) + {LoadingClass} &&
            body.shown == old(body.shown))
      && (pending.None? ==>
            posts == old(posts) && button.caption == old(button.caption) &&
            button.classes == old(button.classes) &&
            body.Announced(old(body.shown), SubmitGate(form).text, "error") && |body.shown| == 1)
    }

    /** The synchronous part of the submit handler: capture the button's caption, run the gate,
        and either show the rejection or enter the loading state and issue the POST.
        Returns the captured caption when a request is in flight. */
    method Submit() returns (pending: Option<string>)
      requires Valid()
      modifies this`posts, button, body
      ensures Valid()
      ensures SubmitEffect(pending)
    {
      var originalText := button.caption;
      var gate := SubmitGate(form);
      if gate.Rejected? {
        var _ := body.Show(gate.text, "error");
        return None;
      }
      button.caption := SendingLabel;
      button.classes := button.classes + {LoadingClass};
      posts := posts + [form];
      pending := Some(originalText);
    }

    /** The submit handler as it was evidently meant to behave: a submission made while a
        request is still in flight (the button carries "loading") does nothing, so the caption
        it captures is always the idle one. */
    method SubmitWhenIdle() returns (pending: Option<string>)
      requires Valid()
      modifies this`posts, button, body
      ensures Valid()
      ensures LoadingClass in old(button.classes) ==>
        pending == None && posts == old(posts) && button.caption == old(button.caption) &&
        button.classes == old(button.classes) && body.shown == old(body.shown)
      ensures LoadingClass !in old(button.classes) ==> SubmitEffect(pending)
      ensures pending.Some? ==> LoadingClass !in old(button.classes)
    {
      if LoadingClass in button.classes {
        return None;
      }
      pending := Submit();
    }

    /** The promise chain of the POST: on an ok response thank the user, reset the form and
        clear every group's decorations; on anything else show the error; in every case put
        back `originalLabel` and drop the loading class. */
    method Settle(originalLabel: string, response: Response)
      requires Valid()
      modifies this`form, button, body, set g | g in groups
      ensures Valid() && |body.shown| == 1
      ensures posts == old(posts)
      ensures response == Ok ==>
        form == EmptyForm && body.Announced(old(body.shown), ThankYouText, "success") &&
        forall g :: g in groups ==> g.classes == old(g.classes) - ValidationClasses
      ensures response != Ok ==>
        form == old(form) && body.Announced(old(body.shown), SendErrorText, "error") &&
        forall g :: g in groups ==> g.classes == old(g.classes)
      ensures button.caption == originalLabel && button.classes == old(button.classes) - {LoadingClass}
    {
      if response == Ok {
        var _ := body.Show(ThankYouText, "success");
        form := EmptyForm;
        ClearValidationStates(groups);
      } else {
        var _ := body.Show(SendErrorText, "error");
      }
      button.caption := originalLabel;
      button.classes := button.classes - {LoadingClass};
    }

    /** One complete submission with the corrected handler: the button ends with its caption
        and classes as before (less "loading"), exactly one notification is shown, and the form
        is posted once and reset only on an ok response. */
    method SubmitAndSettle(response: Response)
      requires Valid()
      modifies this`posts, this`form, button, body, set g | g in groups
      ensures Valid()
      ensures LoadingClass in old(button.classes) ==>
        form == old(form) && posts == old(posts) && button.caption == old(button.caption) &&
        button.classes == old(button.classes) && body.shown == old(body.shown)
      ensures LoadingClass !in old(button.classes) && SubmitGate(old(form)) != Post ==>
        form == old(form) && posts == old(posts) && button.caption == old(button.caption) &&
        button.classes == old(button.classes) &&
        body.Announced(old(body.shown), SubmitGate(old(form)).text, "error") && |body.shown| == 1
      ensures LoadingClass !in old(button.classes) && SubmitGate(old(form)) == Post ==>
        posts == old(posts) + [old(form)] && |body.shown| == 1 &&
        button.caption == old(button.caption) && button.classes == old(button.classes) &&
        (response == Ok ==> form == EmptyForm && body.Announced(old(body.shown), ThankYouText, "success")) &&
        (response != Ok ==> form == old(form) && body.Announced(old(body.shown), SendErrorText, "error"))
      ensures forall g :: g in groups ==>
        g.classes == if LoadingClass !in old(button.classes) && SubmitGate(old(form)) == Post && response == Ok
                     then old(g.classes) - ValidationClasses else old(g.classes)
    {
      var pending := SubmitWhenIdle();
      if pending.Some? {
        Settle(pending.value, response);
      }
    }
  }

  // ---------------------------------------------------------------------------------------
  // Overlapping submissions
  // ---------------------------------------------------------------------------------------

  /** A page holding form `f`, with one form group, an idle button and no notification. */
  method NewScenarioPage(f: FormValues, idleCaption: string) returns (page: ContactPage)
    ensures fresh(page) && fresh(page.button) && fresh(page.body)
    ensures page.Valid() && page.posts == [] && page.body.shown == []
    ensures page.form == f
    ensures page.button.caption == idleCaption && LoadingClass !in page.button.classes
    ensures forall g :: g in page.groups ==> fresh(g)
  {
    var group := new FormGroup({});
    var button := new SubmitButton(idleCaption, {"btn-submit"});
    var body := new NotificationArea();
    page := new ContactPage(f, [group], button, body);
  }

  /** The handler as written, given a form that passes the gate and submitted twice before
      the first response arrives, both responses ok and settled in order: the second
      submission captured the spinner markup as the "original" caption, so that is what the
      button is left showing, and the message was posted twice. */
  method DoubleSubmitAsWritten(f: FormValues, idleCaption: string) returns (finalCaption: string, postCount: nat)
    requires SubmitGate(f) == Post
    requires idleCaption != SendingLabel
    ensures finalCaption == SendingLabel && finalCaption != idleCaption
    ensures postCount == 2
  {
    var page := NewScenarioPage(f, idleCaption);
    var first := page.Submit();
    var second := page.Submit();
    page.Settle(first.value, Ok);
    page.Settle(second.value, Ok);
    finalCaption := page.button.caption;
    postCount := |page.posts|;
  }

  /** The same two submissions with the corrected handler: the second is ignored, one message
      is posted, and the button gets its idle caption back. */
  method DoubleSubmitWhenIdle(f: FormValues, idleCaption: string) returns (finalCaption: string, postCount: nat)
    requires SubmitGate(f) == Post
    ensures finalCaption == idleCaption
    ensures postCount == 1
  {
    var page := NewScenarioPage(f, idleCaption);
    var first := page.SubmitWhenIdle();
    var second := page.SubmitWhenIdle();
    assert second == None;
    page.Settle(first.value, Ok);
    finalCaption := page.button.caption;
    postCount := |page.posts|;
  }
}
