/**
 * The contact form of src/components/sections/Contact.tsx: the validation rules
 * registered with react-hook-form, and the `isSubmitting` life cycle of `onSubmit`.
 */
module Contact {
  import opened Options
  import opened EmailPattern

  datatype FormData = FormData(name: string, email: string, subject: string, message: string)

  /** What `reset()` brings the inputs back to: no default values were given. */
  const EmptyForm := FormData("", "", "", "")

  /** The error message shown under each field that failed its rules; the subject has none. */
  datatype FieldErrors = FieldErrors(name: Option<string>, email: Option<string>, message: Option<string>)

  const NoErrors := FieldErrors(None, None, None)

  const NameRequired := "Name is required"
  const EmailRequired := "Email is required"
  const InvalidEmail := "Invalid email address"
  const MessageRequired := "Message is required"

  /** A `required` rule fails only on the empty string; blank text passes it. The email's
      pattern rule is checked only once the field is non-empty. */
  function Validate(f: FormData): (e: FieldErrors)
    ensures e.name == None <==> f.name != ""
    ensures e.name != None ==> e.name == Some(NameRequired)
    ensures f.email == "" ==> e.email == Some(EmailRequired)
    ensures f.email != "" && !MatchesEmailPattern(f.email) ==> e.email == Some(InvalidEmail)
    ensures e.email == None <==> MatchesEmailPattern(f.email)
    ensures e.message == None <==> f.message != ""
    ensures e.message != None ==> e.message == Some(MessageRequired)
  {
    FieldErrors(
      if f.name == "" then Some(NameRequired) else None,
      if f.email == "" then Some(EmailRequired)
      else if !MatchesEmailPattern(f.email) then Some(InvalidEmail)
      else None,
      if f.message == "" then Some(MessageRequired) else None)
  }

  /** An empty string never matches the email pattern. */
  lemma EmptyEmailDoesNotMatch()
    ensures !MatchesEmailPattern("")
  {
  }

  /** `handleSubmit` calls `onSubmit` only for a form without errors: a non-empty name and
      message and an email that matches the pattern; the subject plays no part. */
  lemma SubmittableForms(f: FormData, subject: string)
    ensures Validate(f) == NoErrors <==> f.name != "" && MatchesEmailPattern(f.email) && f.message != ""
    ensures Validate(f.(subject := subject)) == Validate(f)
  {
  }

  /** The form's state as the component keeps it. */
  class ContactForm {
    var values: FormData
    var errors: FieldErrors
    var isSubmitting: bool

    constructor ()
      ensures values == EmptyForm && errors == NoErrors && !isSubmitting
    {
      values, errors, isSubmitting := EmptyForm, NoErrors, false;
    }

    /** The submit button is disabled exactly while a submission is in flight. */
    function SubmitDisabled(): bool
      reads this
    {
      isSubmitting
    }

    /** The user edits the inputs. */
    method Edit(f: FormData)
      modifies this
      ensures values == f && errors == old(errors) && isSubmitting == old(isSubmitting)
    {
      values := f;
    }

    /** A press of the submit button. A disabled button does nothing; otherwise the form is
        validated, and only a form without errors starts `onSubmit`, which sets
        `isSubmitting` before awaiting the send. */
    method PressSubmit() returns (started: bool)
      modifies this
      ensures values == old(values)
      ensures old(isSubmitting) ==> !started && errors == old(errors) && isSubmitting
      ensures !old(isSubmitting) ==> errors == Validate(values) && started == (errors == NoErrors)
                                     && isSubmitting == started
    {
      if SubmitDisabled() {
        return false;
      }
      errors := Validate(values);
      started := errors == NoErrors;
      if started {
        isSubmitting := true;
      }
    }

    /** The end of `onSubmit` after its await: on success the form is reset, on failure
        (the send threw) it is kept for another try; either way the `finally` clears
        `isSubmitting`. */
    method FinishSubmit(sendFailed: bool)
      requires isSubmitting
      modifies this
      ensures !isSubmitting
      ensures values == if sendFailed then old(values) else EmptyForm
      ensures errors == if sendFailed then old(errors) else NoErrors
    {
      if !sendFailed {
        values, errors := EmptyForm, NoErrors;
      }
      isSubmitting := false;
    }
  }

  /** A whole submission: whatever the outcome of the send, the form ends not submitting,
      its inputs are cleared exactly when a valid form was sent successfully, and the
      errors shown are those of the values submitted. */
  method SubmitOnce(form: ContactForm, sendFailed: bool) returns (started: bool)
    requires !form.isSubmitting
    modifies form
    ensures !form.isSubmitting
    ensures started <==> Validate(old(form.values)) == NoErrors
    ensures form.values == if started && !sendFailed then EmptyForm else old(form.values)
    ensures form.errors == Validate(old(form.values))
  {
    started := form.PressSubmit();
    if started {
      form.FinishSubmit(sendFailed);
    }
  }
}
