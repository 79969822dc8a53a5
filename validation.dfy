/** The decision logic of `validateForm` (script.js:78-98): three checks in a
    fixed order, the first failing one deciding the outcome. The error messages
    it shows are left to the caller (module ContactForm); here each failure is
    a verdict of its own. */
module Validation {
  import opened Text
  import opened Email

  /** The values the submit handler reads from the five inputs
      (script.js:49-55). */
  datatype FormData = FormData(name: string, email: string, phone: string, service: string, message: string)

  /** What `validateForm` decides: `Ok` where it returns true, otherwise the
      check that failed, one per `showMessage(..., 'error')` call. */
  datatype Verdict = Ok | MissingName | InvalidEmail | MissingMessage

  /** `validateForm(data)`, with `!s.trim()` read as "trims to the empty
      string" and the email guard kept as written. The form passes exactly
      when the name and the message are not blank and the address matches;
      otherwise the checks run in the order name, email, message, and each
      error is reported exactly when every earlier check passed and its own
      failed. */
  function Validate(d: FormData): (v: Verdict)
    ensures v == Ok <==> !Blank(d.name) && IsValidEmail(d.email) && !Blank(d.message)
    ensures v == MissingName <==> Blank(d.name)
    ensures v == InvalidEmail <==> !Blank(d.name) && !IsValidEmail(d.email)
    ensures v == MissingMessage <==> !Blank(d.name) && IsValidEmail(d.email) && Blank(d.message)
  {
    if Trim(d.name) == [] then MissingName
    else if Trim(d.email) == [] || !IsValidEmail(d.email) then InvalidEmail
    else if Trim(d.message) == [] then MissingMessage
    else Ok
  }

  /** A blank name is reported whatever the other four fields hold. */
  lemma BlankNameDecides(d: FormData, email: string, phone: string, service: string, message: string)
    requires Blank(d.name)
    ensures Validate(d.(email := email, phone := phone, service := service, message := message)) == MissingName
  {
  }

  /** `phone` and `service` are never looked at. */
  lemma PhoneAndServiceIgnored(d: FormData, phone: string, service: string)
    ensures Validate(d.(phone := phone, service := service)) == Validate(d)
  {
  }

  /** Dropping the `!data.email.trim()` guard changes nothing. */
  lemma EmailGuardRedundant(d: FormData)
    ensures (Trim(d.email) == [] || !IsValidEmail(d.email)) <==> !IsValidEmail(d.email)
  {
  }

  /** A name made only of spaces counts as missing. */
  lemma SpacesAreNoName()
    ensures Validate(FormData("   ", "olena@example.com", "", "", "Hello")) == MissingName
  {
  }

  /** A valid submission: name Olena, address olena@example.com, service
      consult, message Hello, no phone. */
  lemma ScenarioAccepted()
    ensures Validate(FormData("Olena", "olena@example.com", "", "consult", "Hello")) == Ok
  {
    ValidExample();
    NameGiven();
    MessageGiven();
    PassingChecksAccept(FormData("Olena", "olena@example.com", "", "consult", "Hello"));
  }

  /** All three checks passing gives `Ok`. */
  lemma PassingChecksAccept(d: FormData)
    requires !Blank(d.name) && IsValidEmail(d.email) && !Blank(d.message)
    ensures Validate(d) == Ok
  {
  }

  /** The name and the message of the scenarios are not blank. */
  lemma NameGiven()
    ensures !Blank("Olena")
  {
    assert !IsWhitespace("Olena"[0]);
  }

  lemma MessageGiven()
    ensures !Blank("Hello")
  {
    assert !IsWhitespace("Hello"[0]);
  }

  /** An invalid submission: empty name, address `x`, everything else empty. */
  lemma ScenarioRejected()
    ensures Validate(FormData("", "x", "", "", "")) == MissingName
  {
  }

  /** An address with a trailing space fails even though its trim is valid. */
  lemma PaddedEmailRejected()
    ensures Validate(FormData("Olena", "olena@example.com ", "", "", "Hello")) == InvalidEmail
  {
    NameGiven();
    PaddedAddressInvalid();
    FailingEmailRejects(FormData("Olena", "olena@example.com ", "", "", "Hello"));
  }

  /** A trailing space makes an address fail the pattern. */
  lemma PaddedAddressInvalid()
    ensures !IsValidEmail("olena@example.com ")
  {
    var e := "olena@example.com ";
    assert IsWhitespace(e[|e| - 1]);
  }

  /** A given name with a failing address gives `InvalidEmail`. */
  lemma FailingEmailRejects(d: FormData)
    requires !Blank(d.name) && !IsValidEmail(d.email)
    ensures Validate(d) == InvalidEmail
  {
  }
}
