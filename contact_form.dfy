/**
 * The contact form of the engine's `Contact` section and of Bellator's copy of it
 * (`BellatorContact`): the validation rule over the four fields, and the form state
 * that the change and submit handlers update. The two copies are the same code, except
 * that Bellator's schedules `submitSuccess` back to false 5000 ms after a successful submit.
 */
module ContactForm {
  import opened Strings
  import opened Wrappers

  /** The names of the form's inputs, which `handleChange` reads from the event target. */
  datatype Field = Name | Email | Phone | Message

  datatype FormData = FormData(name: string, email: string, phone: string, message: string) {

    function Get(f: Field): string {
      match f
      case Name => name
      case Email => email
      case Phone => phone
      case Message => message
    }

    /** `{ ...prev, [field]: value }` */
    function With(f: Field, value: string): (d: FormData)
      ensures d.Get(f) == value
      ensures forall g | g != f :: d.Get(g) == Get(g)
    {
      match f
      case Name => this.(name := value)
      case Email => this.(email := value)
      case Phone => this.(phone := value)
      case Message => this.(message := value)
    }
  }

  const EmptyForm := FormData("", "", "", "")

  const NameRequired := "A név megadása kötelező"
  const EmailRequired := "Az email cím megadása kötelező"
  const EmailInvalid := "Érvénytelen email cím"
  const MessageRequired := "Az üzenet megadása kötelező"

  /** `[^\s@]+`: a non-empty run of characters that are neither whitespace nor `@`. */
  predicate IsAddressRun(s: string) {
    s != [] && forall i | 0 <= i < |s| :: !IsWhitespace(s[i]) && s[i] != '@'
  }

  /** `/^[^\s@]+@[^\s@]+\.[^\s@]+$/.test(s)`, following the pattern: a run, `@`, a run, `.`, a run. */
  predicate MatchesEmailPattern(s: string) {
    exists at | 0 <= at < |s| :: exists dot | at < dot < |s| ::
      && s[at] == '@' && s[dot] == '.'
      && IsAddressRun(s[..at]) && IsAddressRun(s[at + 1..dot]) && IsAddressRun(s[dot + 1..])
  }

  /** What the pattern accepts, said without it: no whitespace anywhere, exactly one `@`,
      which is not the first character, and a `.` in the part after the `@` that is
      neither that part's first nor its last character. */
  predicate IsWellFormedEmail(s: string) {
    && NoWhitespace(s)
    && exists at | 0 < at < |s| ::
      && s[at] == '@'
      && (forall k | 0 <= k < |s| && s[k] == '@' :: k == at)
      && (exists dot | at + 1 < dot < |s| - 1 :: s[dot] == '.')
  }

  lemma EmailPatternMeaning(s: string)
    ensures MatchesEmailPattern(s) <==> IsWellFormedEmail(s)
  {
    if MatchesEmailPattern(s) {
      var at, dot :| 0 <= at < dot < |s| && s[at] == '@' && s[dot] == '.'
        && IsAddressRun(s[..at]) && IsAddressRun(s[at + 1..dot]) && IsAddressRun(s[dot + 1..]);
      MatchIsWellFormed(s, at, dot);
    }
    if IsWellFormedEmail(s) {
      var at :| 0 < at < |s| && s[at] == '@'
        && (forall k | 0 <= k < |s| && s[k] == '@' :: k == at)
        && (exists dot | at + 1 < dot < |s| - 1 :: s[dot] == '.');
      var dot :| at + 1 < dot < |s| - 1 && s[dot] == '.';
      WellFormedMatches(s, at, dot);
    }
  }

  /** A match, cut at its `@` and its `.`, is well formed. */
  lemma MatchIsWellFormed(s: string, at: nat, dot: nat)
    requires at < dot < |s| && s[at] == '@' && s[dot] == '.'
    requires IsAddressRun(s[..at]) && IsAddressRun(s[at + 1..dot]) && IsAddressRun(s[dot + 1..])
    ensures IsWellFormedEmail(s)
  {
    forall k | 0 <= k < |s| && k != at && k != dot
      ensures !IsWhitespace(s[k]) && s[k] != '@'
    {
      if k < at {
        assert s[k] == s[..at][k];
      } else if k < dot {
        assert s[k] == s[at + 1..dot][k - at - 1];
      } else {
        assert s[k] == s[dot + 1..][k - dot - 1];
      }
    }
    assert at + 1 < dot < |s| - 1;
  }

  /** A well-formed address matches, cut at its only `@` and a `.` after it. */
  lemma WellFormedMatches(s: string, at: nat, dot: nat)
    requires NoWhitespace(s)
    requires 0 < at && at + 1 < dot < |s| - 1 && s[at] == '@' && s[dot] == '.'
    requires forall k | 0 <= k < |s| && s[k] == '@' :: k == at
    ensures MatchesEmailPattern(s)
  {
    assert IsAddressRun(s[..at]);
    assert IsAddressRun(s[at + 1..dot]);
    assert IsAddressRun(s[dot + 1..]);
  }

  /** The error map `validate` builds afresh: a field is in it exactly when its rule fails,
      with the rule's message; the phone has no rule. */
  function ValidationErrors(d: FormData): (errors: map<Field, string>)
    ensures Name in errors <==> IsBlank(d.name)
    ensures Email in errors <==> IsBlank(d.email) || !IsWellFormedEmail(d.email)
    ensures Message in errors <==> IsBlank(d.message)
    ensures Phone !in errors
    ensures Name in errors ==> errors[Name] == NameRequired
    ensures Message in errors ==> errors[Message] == MessageRequired
    ensures IsBlank(d.email) ==> errors[Email] == EmailRequired
    ensures !IsBlank(d.email) && !IsWellFormedEmail(d.email) ==> errors[Email] == EmailInvalid
  {
    EmailPatternMeaning(d.email);
    var nameError := if IsBlank(d.name) then map[Name := NameRequired] else map[];
    var emailError :=
      if IsBlank(d.email) then map[Email := EmailRequired]
      else if !MatchesEmailPattern(d.email) then map[Email := EmailInvalid]
      else map[];
    var messageError := if IsBlank(d.message) then map[Message := MessageRequired] else map[];
    nameError + emailError + messageError
  }

  /** Every message `validate` records is non-empty, and the phone never gets one. */
  lemma ErrorsAreMessages(d: FormData)
    ensures Phone !in ValidationErrors(d)
    ensures forall f | f in ValidationErrors(d) :: ValidationErrors(d)[f] != ""
  {
    var errors := ValidationErrors(d);
    forall f | f in errors ensures errors[f] != "" {
      match f
      case Name =>
      case Email =>
      case Message =>
    }
  }

  /** `validate()`'s answer: `Object.keys(newErrors).length === 0`. */
  predicate IsValid(d: FormData) {
    ValidationErrors(d) == map[]
  }

  /** A form passes exactly when name and message are not blank and the email is well formed;
      the phone is never looked at. */
  lemma ValidIff(d: FormData)
    ensures IsValid(d) <==>
      && !IsBlank(d.name)
      && !IsBlank(d.email) && IsWellFormedEmail(d.email)
      && !IsBlank(d.message)
  {
    var errors := ValidationErrors(d);
    if !IsBlank(d.name) && !IsBlank(d.email) && IsWellFormedEmail(d.email) && !IsBlank(d.message)
    {
      assert forall f: Field :: f !in errors by {
        forall f: Field ensures f !in errors {
          match f
          case Name =>
          case Email =>
          case Phone =>
          case Message =>
        }
      }
      assert errors == map[];
    }
  }

  /** The form a successful submit leaves behind fails every required rule, so submitting
      it again without editing is blocked. */
  lemma EmptyFormRejected()
    ensures ValidationErrors(EmptyForm).Keys == {Name, Email, Message}
    ensures ValidationErrors(EmptyForm)[Email] == EmailRequired
  {
    var errors := ValidationErrors(EmptyForm);
    forall f | f in errors ensures f in {Name, Email, Message} {
    }
  }

  /** What the `onSubmit` prop does when it is awaited: it is absent, it resolves, or it throws. */
  datatype SubmitHandler = NoHandler | Resolves | Rejects

  /** The component's state: the four `useState` hooks. */
  class ContactFormState {
    var formData: FormData
    var errors: map<Field, string>
    var isSubmitting: bool
    var submitSuccess: bool
    /** True for Bellator's copy, whose successful submit schedules the success flag's reset. */
    const resetsAfterSuccess: bool
    /** Reset timers scheduled and not yet fired. */
    var pendingResets: nat

    /** Every recorded error is a non-empty, hence truthy, message; the phone never has one. */
    ghost predicate Valid()
      reads this
    {
      Phone !in errors && forall f | f in errors :: errors[f] != ""
    }

    constructor (resetsAfterSuccess: bool)
      ensures Valid()
      ensures formData == EmptyForm && errors == map[]
      ensures !isSubmitting && !submitSuccess && pendingResets == 0
      ensures this.resetsAfterSuccess == resetsAfterSuccess
    {
      formData := EmptyForm;
      errors := map[];
      isSubmitting := false;
      submitSuccess := false;
      this.resetsAfterSuccess := resetsAfterSuccess;
      pendingResets := 0;
    }

    /** `validate()`: replaces the whole error map, so no earlier error survives. */
    method Validate() returns (ok: bool)
      requires Valid()
      modifies this
      ensures Valid()
      ensures errors == ValidationErrors(formData)
      ensures ok <==> IsValid(formData)
      ensures formData == old(formData) && isSubmitting == old(isSubmitting)
      ensures submitSuccess == old(submitSuccess) && pendingResets == old(pendingResets)
    {
      ErrorsAreMessages(formData);
      errors := ValidationErrors(formData);
      ok := |errors.Keys| == 0;
      assert ok <==> errors == map[] by {
        if ok {
          assert forall f | f in errors :: f in errors.Keys;
        }
      }
    }

    /** `handleSubmit`, with the awaited handler's outcome given; `sent` is what `onSubmit` received. */
    method HandleSubmit(handler: SubmitHandler) returns (sent: Option<FormData>)
      requires Valid()
      modifies this
      ensures Valid()
      ensures errors == ValidationErrors(old(formData))
      ensures !IsValid(old(formData)) ==>
        && sent == None && formData == old(formData)
        && isSubmitting == old(isSubmitting) && submitSuccess == old(submitSuccess)
        && pendingResets == old(pendingResets)
      ensures IsValid(old(formData)) ==>
        && !isSubmitting
        && sent == (if handler == NoHandler then None else Some(old(formData)))
      ensures IsValid(old(formData)) && handler != Rejects ==>
        && submitSuccess && formData == EmptyForm
        && pendingResets == old(pendingResets) + (if resetsAfterSuccess then 1 else 0)
      ensures IsValid(old(formData)) && handler == Rejects ==>
        && formData == old(formData) && submitSuccess == old(submitSuccess)
        && pendingResets == old(pendingResets)
    {
      var ok := Validate();
      if !ok {
        return None;
      }
      isSubmitting := true;
      sent := None;
      if handler != NoHandler {
        sent := Some(formData);
      }
      if handler != Rejects {
        submitSuccess := true;
        formData := EmptyForm;
        if resetsAfterSuccess {
          pendingResets := pendingResets + 1;
        }
      }
      isSubmitting := false;
    }

    /** `handleChange`: stores the input's value and clears that field's error, if it shows one. */
    method HandleChange(field: Field, value: string)
      requires Valid()
      modifies this
      ensures Valid()
      ensures formData == old(formData).With(field, value)
      ensures errors == old(errors) - {field}
      ensures isSubmitting == old(isSubmitting) && submitSuccess == old(submitSuccess)
      ensures pendingResets == old(pendingResets)
    {
      formData := formData.With(field, value);
      if field in errors && errors[field] != "" {
        errors := errors - {field};
      }
    }

    /** The button on the success panel ("Új üzenet"), shown only while `submitSuccess` holds. */
    method DismissSuccess()
      requires Valid() && submitSuccess
      modifies this
      ensures Valid()
      ensures !submitSuccess
      ensures formData == old(formData) && errors == old(errors)
      ensures isSubmitting == old(isSubmitting) && pendingResets == old(pendingResets)
    {
      submitSuccess := false;
    }

    /** A reset timer scheduled by a successful submit fires. */
    method ResetTimerFires()
      requires Valid() && pendingResets > 0
      modifies this
      ensures Valid()
      ensures !submitSuccess && pendingResets == old(pendingResets) - 1
      ensures formData == old(formData) && errors == old(errors)
      ensures isSubmitting == old(isSubmitting)
    {
      submitSuccess := false;
      pendingResets := pendingResets - 1;
    }
  }
}
