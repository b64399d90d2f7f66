/**
 The contact form: the four-field schema, the form's default values and what
 a submission does to the form state. The email-shape check of the schema
 library is the uninterpreted predicate `isEmail`; the outcome of the
 submission client is a parameter.
 */
module Contact {
  import opened JsArray

  datatype FormData = FormData(name: string, email: string, subject: string, message: string)

  datatype Field = Name | Email | Subject | Message

  /** A field-scoped validation message. */
  datatype FieldError = FieldError(field: Field, message: string)

  /** A toast notification raised after a submission. */
  datatype Toast = Toast(title: string, description: string, destructive: bool)

  /** What the submission client reported: resolved, or threw. */
  datatype Delivery = Delivered | Failed

  const NameError := FieldError(Name, "Name must be at least 2 characters")
  const EmailError := FieldError(Email, "Please enter a valid email address")
  const SubjectError := FieldError(Subject, "Subject must be at least 5 characters")
  const MessageError := FieldError(Message, "Message must be at least 10 characters")

  const SuccessToast := Toast("Message sent successfully!", "Thank you for your message. I'll get back to you soon.", false)
  const FailureToast := Toast("Failed to send message", "Please try again later or contact me directly via email.", true)

  /** The form's `defaultValues`: four empty strings. */
  const DefaultValues := FormData("", "", "", "")

  predicate NameValid(name: string) { |name| >= 2 }
  predicate SubjectValid(subject: string) { |subject| >= 5 }
  predicate MessageValid(message: string) { |message| >= 10 }

  /** The schema accepts the data. */
  predicate FormValid(data: FormData, isEmail: string -> bool) {
    && NameValid(data.name)
    && isEmail(data.email)
    && SubjectValid(data.subject)
    && MessageValid(data.message)
  }

  /**
   The schema's verdict on `data`: one message per failing field, in field
   order; no message at all exactly when the data is valid.
   */
  function Errors(data: FormData, isEmail: string -> bool): (r: seq<FieldError>)
    ensures NameError in r <==> |data.name| < 2
    ensures EmailError in r <==> !isEmail(data.email)
    ensures SubjectError in r <==> |data.subject| < 5
    ensures MessageError in r <==> |data.message| < 10
    ensures r == [] <==> FormValid(data, isEmail)
    ensures |r| <= 4
  {
    (if NameValid(data.name) then [] else [NameError])
    + (if isEmail(data.email) then [] else [EmailError])
    + (if SubjectValid(data.subject) then [] else [SubjectError])
    + (if MessageValid(data.message) then [] else [MessageError])
  }

  /** The message a field shows when its rule fails. */
  function ErrorFor(field: Field): (e: FieldError)
    ensures e.field == field
    ensures e in [NameError, EmailError, SubjectError, MessageError]
  {
    match field
    case Name => NameError
    case Email => EmailError
    case Subject => SubjectError
    case Message => MessageError
  }

  /** The schema's rule for one field. */
  predicate FieldValid(data: FormData, field: Field, isEmail: string -> bool) {
    match field
    case Name => NameValid(data.name)
    case Email => isEmail(data.email)
    case Subject => SubjectValid(data.subject)
    case Message => MessageValid(data.message)
  }

  /** A field's message is among the schema's messages exactly when its own rule fails. */
  lemma ErrorsPerField(data: FormData, field: Field, isEmail: string -> bool)
    ensures ErrorFor(field) in Errors(data, isEmail) <==> !FieldValid(data, field, isEmail)
  {
    match field
    case Name =>
    case Email =>
    case Subject =>
    case Message =>
  }

  /**
   Re-validation of one field after an edit: that field's message is shown
   exactly when its rule now fails, and the other fields' messages stay as
   they were.
   */
  function Revalidate(errors: seq<FieldError>, data: FormData, field: Field, isEmail: string -> bool): (r: seq<FieldError>)
    ensures ErrorFor(field) in r <==> !FieldValid(data, field, isEmail)
    ensures forall e :: e in r && e.field == field ==> e == ErrorFor(field)
    ensures forall e: FieldError :: e.field != field ==> (e in r <==> e in errors)
  {
    var others := Filter(errors, (e: FieldError) => e.field != field);
    assert forall e: FieldError :: e.field != field && e in errors ==> e in others by {
      forall e: FieldError | e.field != field && e in errors ensures e in others {
        var i :| 0 <= i < |errors| && errors[i] == e;
      }
    }
    assert forall e :: e in others ==> e.field != field && e in errors by {
      forall e | e in others ensures e.field != field && e in errors {
        var i :| 0 <= i < |others| && others[i] == e;
      }
    }
    others + (if FieldValid(data, field, isEmail) then [] else [ErrorFor(field)])
  }

  /** After re-validation, a field's message is shown exactly when the whole schema would report it. */
  lemma RevalidateAgreesWithSchema(errors: seq<FieldError>, data: FormData, field: Field, isEmail: string -> bool)
    ensures ErrorFor(field) in Revalidate(errors, data, field, isEmail) <==> ErrorFor(field) in Errors(data, isEmail)
  {
    ErrorsPerField(data, field, isEmail);
  }

  /** The empty defaults fail the name, subject and message checks. */
  lemma DefaultsInvalid(isEmail: string -> bool)
    ensures !FormValid(DefaultValues, isEmail)
    ensures NameError in Errors(DefaultValues, isEmail)
    ensures SubjectError in Errors(DefaultValues, isEmail)
    ensures MessageError in Errors(DefaultValues, isEmail)
  {
  }

  /** The fields with one of them replaced. */
  function WithField(data: FormData, field: Field, value: string): (r: FormData)
    ensures field == Name ==> r == data.(name := value)
    ensures field == Email ==> r == data.(email := value)
    ensures field == Subject ==> r == data.(subject := value)
    ensures field == Message ==> r == data.(message := value)
  {
    match field
    case Name => data.(name := value)
    case Email => data.(email := value)
    case Subject => data.(subject := value)
    case Message => data.(message := value)
  }

  /** The form state of `ContactSection`. */
  class ContactForm {
    const isEmail: string -> bool
    var values: FormData
    var errors: seq<FieldError>
    var toasts: seq<Toast>
    /** Every payload handed to the submission client, oldest first. */
    var sent: seq<FormData>
    /** The form library's `isSubmitted`: a submit was attempted, so edits re-validate. */
    var submitAttempted: bool

    /** Nothing invalid was ever handed to the submission client. */
    ghost predicate Valid()
      reads this
    {
      forall i :: 0 <= i < |sent| ==> FormValid(sent[i], isEmail)
    }

    constructor (isEmail: string -> bool)
      ensures this.isEmail == isEmail
      ensures values == DefaultValues && errors == [] && toasts == [] && sent == []
      ensures !submitAttempted
      ensures Valid()
    {
      this.isEmail := isEmail;
      values := DefaultValues;
      errors := [];
      toasts := [];
      sent := [];
      submitAttempted := false;
    }

    /**
     Typing into one field. Before the first submit attempt nothing is
     validated; after it, the edited field is re-validated on every change.
     */
    method SetField(field: Field, value: string)
      modifies this
      ensures values == WithField(old(values), field, value)
      ensures !old(submitAttempted) ==> errors == old(errors)
      ensures old(submitAttempted) ==> errors == Revalidate(old(errors), values, field, isEmail)
      ensures toasts == old(toasts) && sent == old(sent) && submitAttempted == old(submitAttempted)
    {
      values := WithField(values, field, value);
      if submitAttempted {
        errors := Revalidate(errors, values, field, isEmail);
      }
    }

    /**
     `onSubmit(data)`: hands `data` to the submission client; on success raises
     the success toast and resets the form to its defaults, on failure raises
     the error toast and leaves the fields as they are.
     */
    method OnSubmit(data: FormData, outcome: Delivery)
      requires Valid() && FormValid(data, isEmail)
      modifies this
      ensures Valid()
      ensures sent == old(sent) + [data]
      ensures outcome == Delivered ==> values == DefaultValues && errors == [] && toasts == old(toasts) + [SuccessToast]
      ensures outcome == Failed ==> values == old(values) && errors == old(errors) && toasts == old(toasts) + [FailureToast]
      ensures submitAttempted == old(submitAttempted)
    {
      sent := sent + [data];
      if outcome == Delivered {
        toasts := toasts + [SuccessToast];
        values := DefaultValues;
        errors := [];
      } else {
        toasts := toasts + [FailureToast];
      }
    }

    /**
     The form's submit handler: runs `onSubmit` with the current values only
     when the schema accepts them, and otherwise records the field messages.
     Either way it records the attempt once `onSubmit` has returned.
     */
    method HandleSubmit(outcome: Delivery) returns (submitted: bool)
      requires Valid()
      modifies this
      ensures Valid()
      ensures submitAttempted
      ensures submitted <==> FormValid(old(values), isEmail)
      ensures !submitted ==>
        && values == old(values) && errors == Errors(old(values), isEmail)
        && toasts == old(toasts) && sent == old(sent)
      ensures submitted ==> sent == old(sent) + [old(values)]
      ensures submitted && outcome == Delivered ==> values == DefaultValues && errors == [] && toasts == old(toasts) + [SuccessToast]
      ensures submitted && outcome == Failed ==> values == old(values) && errors == [] && toasts == old(toasts) + [FailureToast]
    {
      var found := Errors(values, isEmail);
      if found != [] {
        errors := found;
        submitAttempted := true;
        return false;
      }
      errors := [];
      OnSubmit(values, outcome);
      submitAttempted := true;
      submitted := true;
    }
  }
}
