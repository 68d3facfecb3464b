/**
 * The contact-form hook (src/hooks/useContactForm.ts): three text fields,
 * their validation errors, a simulated submission, and a single notification
 * slot that a timer hides.
 *
 * The hook's state cells become the fields of `ContactFormHook`; the
 * 1000 ms simulated request and the 5000 ms hide timer become explicit
 * events (`RequestSettles`, `HideTimerFires`) with counters of the requests
 * and timers still pending.
 */
module ContactForm {
  import opened Wrappers
  import opened Text

  datatype Field = Name | Email | Message

  datatype FormData = FormData(name: string, email: string, message: string) {
    function Get(f: Field): string {
      match f
      case Name => name
      case Email => email
      case Message => message
    }

    /** `{ ...prev, [f]: value }` */
    function With(f: Field, value: string): (r: FormData)
      ensures r.Get(f) == value
      ensures forall g :: g != f ==> r.Get(g) == Get(g)
    {
      match f
      case Name => this.(name := value)
      case Email => this.(email := value)
      case Message => this.(message := value)
    }
  }

  /** `FormErrors`: an absent key and `undefined` are both `None`. */
  datatype Errors = Errors(name: Option<string>, email: Option<string>, message: Option<string>) {
    function Get(f: Field): Option<string> {
      match f
      case Name => name
      case Email => email
      case Message => message
    }

    /** `{ ...prev, [f]: undefined }` */
    function Cleared(f: Field): (r: Errors)
      ensures r.Get(f) == None
      ensures forall g :: g != f ==> r.Get(g) == Get(g)
    {
      match f
      case Name => this.(name := None)
      case Email => this.(email := None)
      case Message => this.(message := None)
    }
  }

  /** JavaScript truthiness of an optional error string. */
  predicate Truthy(e: Option<string>) {
    e.Some? && e.value != []
  }

  /** `Object.keys(newErrors).length === 0` for the object `validateForm` builds. */
  predicate NoErrors(e: Errors) {
    e.name.None? && e.email.None? && e.message.None?
  }

  const EmptyForm := FormData("", "", "")
  const NoErrorsYet := Errors(None, None, None)

  const NameRequired: string := "Name is required"
  const EmailRequired: string := "Email is required"
  const EmailInvalid: string := "Please enter a valid email address"
  const MessageRequired: string := "Message is required"
  const SentMessage: string := "Message sent successfully!"
  const FailedMessage: string := "Failed to send message. Please try again."

  // ---------------------------------------------------------------------
  // The e-mail test `/\S+@\S+\.\S+/.test(email)`
  // ---------------------------------------------------------------------

  /** `t` splits as  \S+ '@' \S+ '.' \S+  with the '@' at `a` and the '.' at `d`. */
  predicate EmailParts(t: string, a: int, d: int) {
    0 < a && a + 1 < d && d + 1 < |t| &&
    t[a] == '@' && t[d] == '.' &&
    NoSpace(t[..a]) && NoSpace(t[a + 1..d]) && NoSpace(t[d + 1..])
  }

  /** The whole of `t` matches `\S+@\S+\.\S+`. */
  ghost predicate EmailPatternMatches(t: string) {
    exists a, d :: EmailParts(t, a, d)
  }

  /** `RegExp.prototype.test` with the unanchored pattern: some substring matches. */
  ghost predicate EmailRegexTest(s: string) {
    exists i, j :: 0 <= i <= j <= |s| && EmailPatternMatches(s[i..j])
  }

  /** An '@' at `a` and a '.' at `d`, each with a non-space character outside,
      and only non-space characters between them. */
  predicate EmailAnchors(s: string, a: int, d: int) {
    0 < a && a + 1 < d && d + 1 < |s| &&
    s[a] == '@' && s[d] == '.' && !IsSpace(s[a - 1]) && !IsSpace(s[d + 1]) &&
    NoSpace(s[a + 1..d])
  }

  /** A direct decision procedure for the e-mail test. */
  predicate HasEmailShape(s: string) {
    exists a, d | 0 <= a < |s| && 0 <= d < |s| :: EmailAnchors(s, a, d)
  }

  /** The decision procedure agrees with the regular expression, in both directions. */
  lemma EmailShapeIsRegexTest(s: string)
    ensures HasEmailShape(s) <==> EmailRegexTest(s)
  {
    if HasEmailShape(s) {
      var a, d :| 0 <= a < |s| && 0 <= d < |s| && EmailAnchors(s, a, d);
      var t := s[a - 1..d + 2];
      assert t[..1] == [s[a - 1]];
      var u := t[2..d - a + 1];
      forall k | 0 <= k < |u| ensures u[k] == s[a + 1 + k] {
        assert u[k] == t[2 + k] == s[a - 1 + 2 + k];
      }
      assert u == s[a + 1..d];
      assert t[d - a + 2..] == [s[d + 1]];
      assert EmailParts(t, 1, d - a + 1);
      assert EmailPatternMatches(s[a - 1..d + 2]);
    }
    if EmailRegexTest(s) {
      var i, j :| 0 <= i <= j <= |s| && EmailPatternMatches(s[i..j]);
      var t := s[i..j];
      var a, d :| EmailParts(t, a, d);
      assert t[a - 1] == t[..a][a - 1];
      assert t[d + 1] == t[d + 1..][0];
      var u := s[i + a + 1..i + d];
      forall k | 0 <= k < |u| ensures u[k] == t[a + 1 + k] { }
      assert u == t[a + 1..d];
      assert EmailAnchors(s, i + a, i + d);
    }
  }

  /** A string that passes the e-mail test is not blank (it holds an '@'). */
  lemma EmailTestImpliesNotBlank(s: string)
    requires EmailRegexTest(s)
    ensures !AllSpace(s)
  {
    EmailShapeIsRegexTest(s);
    var a, d :| 0 <= a < |s| && 0 <= d < |s| && EmailAnchors(s, a, d);
    assert !IsSpace(s[a]);
  }

  /** The match is unanchored: text around an address is accepted. */
  lemma UnanchoredEmailExample()
    ensures EmailRegexTest("mail me: a@b.co thanks")
    ensures EmailRegexTest("a@b.com")
    ensures !EmailRegexTest("not-an-email")
  {
    assert EmailAnchors("mail me: a@b.co thanks", 10, 12);
    EmailShapeIsRegexTest("mail me: a@b.co thanks");
    assert EmailAnchors("a@b.com", 1, 3);
    EmailShapeIsRegexTest("a@b.com");
    var s := "not-an-email";
    assert forall a | 0 <= a < |s| :: s[a] != '@';
    EmailShapeIsRegexTest(s);
  }

  // ---------------------------------------------------------------------
  // validateForm
  // ---------------------------------------------------------------------

  /** The errors `validateForm` computes: "required" for a blank field, and
      for a non-blank e-mail that fails the test, "invalid". */
  function Validate(f: FormData): (e: Errors)
    ensures e.name == if AllSpace(f.name) then Some(NameRequired) else None
    ensures e.email == if AllSpace(f.email) then Some(EmailRequired)
                       else if !EmailRegexTest(f.email) then Some(EmailInvalid)
                       else None
    ensures e.message == if AllSpace(f.message) then Some(MessageRequired) else None
  {
    EmailShapeIsRegexTest(f.email);
    Errors(
      if IsBlank(f.name) then Some(NameRequired) else None,
      if IsBlank(f.email) then Some(EmailRequired)
      else if !HasEmailShape(f.email) then Some(EmailInvalid)
      else None,
      if IsBlank(f.message) then Some(MessageRequired) else None)
  }

  /** `validateForm` returns true exactly for non-blank name and message and an
      e-mail that passes the test. */
  lemma ValidIff(f: FormData)
    ensures NoErrors(Validate(f)) <==>
            !AllSpace(f.name) && !AllSpace(f.message) && EmailRegexTest(f.email)
  {
    if EmailRegexTest(f.email) {
      EmailTestImpliesNotBlank(f.email);
    }
  }

  /** An empty name with a valid e-mail and message gives exactly one error;
      a bad address gives only the e-mail error; a complete form gives none. */
  lemma ValidationExamples()
    ensures Validate(FormData("", "a@b.com", "Hello")) == Errors(Some(NameRequired), None, None)
    ensures Validate(FormData("Ann", "a@b.com", "Hello")) == NoErrorsYet
    ensures Validate(FormData("Ann", "not-an-email", "Hello")) == Errors(None, Some(EmailInvalid), None)
  {
    UnanchoredEmailExample();
    assert !AllSpace("Hello") by { assert !IsSpace("Hello"[0]); }
    assert !AllSpace("Ann") by { assert !IsSpace("Ann"[0]); }
    assert !AllSpace("not-an-email") by { assert !IsSpace("not-an-email"[0]); }
    assert !AllSpace("a@b.com") by { assert !IsSpace("a@b.com"[0]); }
  }

  // ---------------------------------------------------------------------
  // The hook
  // ---------------------------------------------------------------------

  datatype Kind = Success | Failure

  datatype Notification = Notification(message: string, kind: Kind, isVisible: bool)

  class ContactFormHook {
    var formData: FormData
    var errors: Errors
    var isSubmitting: bool
    var notification: Notification
    /** 5000 ms hide timers scheduled and not yet fired; they are never cancelled. */
    var pendingHideTimers: nat
    /** Simulated requests awaited and not yet settled. */
    var pendingRequests: nat

    /** The initial state of the hook's state cells. */
    constructor ()
      ensures formData == EmptyForm && errors == NoErrorsYet && !isSubmitting
      ensures notification == Notification("", Success, false)
      ensures pendingHideTimers == 0 && pendingRequests == 0
    {
      formData := EmptyForm;
      errors := NoErrorsYet;
      isSubmitting := false;
      notification := Notification("", Success, false);
      pendingHideTimers := 0;
      pendingRequests := 0;
    }

    /** `validateForm`: builds the errors field by field, stores them, and
        reports whether there were none. */
    method ValidateForm() returns (ok: bool)
      modifies this`errors
      ensures errors == Validate(formData)
      ensures ok <==> NoErrors(errors)
    {
      var newErrors := NoErrorsYet;
      if IsBlank(formData.name) {
        newErrors := newErrors.(name := Some(NameRequired));
      }
      if IsBlank(formData.email) {
        newErrors := newErrors.(email := Some(EmailRequired));
      } else if !HasEmailShape(formData.email) {
        newErrors := newErrors.(email := Some(EmailInvalid));
      }
      if IsBlank(formData.message) {
        newErrors := newErrors.(message := Some(MessageRequired));
      }
      errors := newErrors;
      ok := newErrors.name.None? && newErrors.email.None? && newErrors.message.None?;
    }

    /** `showNotification`: overwrites the single slot and schedules a hide timer. */
    method ShowNotification(message: string, kind: Kind)
      modifies this`notification, this`pendingHideTimers
      ensures notification == Notification(message, kind, true)
      ensures pendingHideTimers == old(pendingHideTimers) + 1
    {
      notification := Notification(message, kind, true);
      pendingHideTimers := pendingHideTimers + 1;
    }

    /** A hide timer fires: whichever notification is in the slot is hidden,
        keeping its message and kind. */
    method HideTimerFires()
      requires pendingHideTimers > 0
      modifies this`notification, this`pendingHideTimers
      ensures notification == old(notification).(isVisible := false)
      ensures pendingHideTimers == old(pendingHideTimers) - 1
    {
      notification := notification.(isVisible := false);
      pendingHideTimers := pendingHideTimers - 1;
    }

    /** `closeNotification`: hides the slot; pending timers stay scheduled. */
    method CloseNotification()
      modifies this`notification
      ensures notification == old(notification).(isVisible := false)
    {
      notification := notification.(isVisible := false);
    }

    /** `handleChange` on field `f`: sets that field, and clears its error
        when it had one; nothing else changes. */
    method HandleChange(f: Field, value: string)
      modifies this`formData, this`errors
      ensures formData == old(formData).With(f, value)
      ensures errors == if Truthy(old(errors).Get(f)) then old(errors).Cleared(f) else old(errors)
      ensures !Truthy(errors.Get(f))
      ensures forall g :: g != f ==> formData.Get(g) == old(formData).Get(g) && errors.Get(g) == old(errors).Get(g)
    {
      formData := formData.With(f, value);
      if Truthy(errors.Get(f)) {
        errors := errors.Cleared(f);
      }
    }

    /** `handleSubmit` up to the awaited request: on a validation failure it
        stops after storing the errors; otherwise it marks the form as
        submitting and starts the request. */
    method HandleSubmit() returns (accepted: bool)
      modifies this`errors, this`isSubmitting, this`pendingRequests
      ensures errors == Validate(formData)
      ensures accepted <==> NoErrors(errors)
      ensures !accepted ==> isSubmitting == old(isSubmitting) && pendingRequests == old(pendingRequests)
      ensures accepted ==> isSubmitting && pendingRequests == old(pendingRequests) + 1
    {
      accepted := ValidateForm();
      if !accepted {
        return;
      }
      isSubmitting := true;
      pendingRequests := pendingRequests + 1;
    }

    /** The awaited request settles: on success the fields are reset and a
        success notification shown; on failure (the `catch` branch) an error
        notification is shown and the fields kept. Either way the `finally`
        clears `isSubmitting`. */
    method RequestSettles(failed: bool)
      requires pendingRequests > 0
      modifies this`formData, this`notification, this`pendingHideTimers, this`isSubmitting, this`pendingRequests
      ensures formData == if failed then old(formData) else EmptyForm
      ensures notification == if failed then Notification(FailedMessage, Failure, true)
                              else Notification(SentMessage, Success, true)
      ensures pendingHideTimers == old(pendingHideTimers) + 1
      ensures !isSubmitting && pendingRequests == old(pendingRequests) - 1
    {
      if !failed {
        formData := EmptyForm;
        ShowNotification(SentMessage, Success);
      } else {
        ShowNotification(FailedMessage, Failure);
      }
      isSubmitting := false;
      pendingRequests := pendingRequests - 1;
    }
  }

  /** The hide timer of an earlier notification hides a later one: timers
      are never cancelled and the slot holds one notification. */
  method StaleTimerHidesLaterNotification() returns (h: ContactFormHook)
    ensures fresh(h)
    ensures h.notification == Notification("second", Failure, false)
    ensures h.pendingHideTimers == 1
  {
    h := new ContactFormHook();
    h.ShowNotification("first", Success);
    h.ShowNotification("second", Failure);
    h.HideTimerFires();
  }
}
