/** The submit handler of `initContactForm` (script.js:41-75): Idle, then
    Submitting while the simulated request is pending, then Idle again. The
    `setTimeout` callback (script.js:66-71) is the separate step `Complete`. */
module ContactForm {
  import opened Validation
  import opened Notifications

  /** The submit button's markup while a submission is pending
      (script.js:62): a spinner icon and the word for "Sending...". */
  const LoadingLabel: string :=
    "<i class=\"fas fa-spinner fa-spin\"></i> \U{0412}\U{0456}\U{0434}\U{043F}\U{0440}\U{0430}\U{0432}\U{043A}\U{0430}..."

  /** Whether a completion callback is scheduled, and what it captured: the
      submitted name and the button's label from before the submission. */
  datatype Submission = Idle | Submitting(name: string, savedLabel: string)

  /** The error text `validateForm` shows for each failed check; never the
      thank-you note. */
  function ErrorMessage(v: Verdict): (m: Message)
    requires v != Ok
    ensures !m.Thanks?
  {
    match v
    case MissingName => AskName
    case InvalidEmail => AskEmail
    case MissingMessage => AskMessage
  }

  /** The three failed checks show three different texts. */
  lemma ErrorMessagesDistinct(v: Verdict, w: Verdict)
    requires v != Ok && w != Ok
    ensures ErrorMessage(v) == ErrorMessage(w) ==> v == w
  {
  }

  /** The contact form: its five inputs, its submit button, the completion
      that may be pending and the page's notification presenter. */
  class Form {
    var name: string
    var email: string
    var phone: string
    var service: string
    var message: string
    var buttonLabel: string
    var buttonDisabled: bool
    var pending: Submission
    const presenter: Presenter

    /** The snapshot the submit handler takes of the inputs. */
    function Data(): FormData
      reads this
    {
      FormData(name, email, phone, service, message)
    }

    /** The button is disabled exactly while a completion is pending, and
        then shows the loading label. */
    ghost predicate Valid()
      reads this, presenter
    {
      presenter.Valid() &&
      (buttonDisabled <==> pending.Submitting?) &&
      (pending.Submitting? ==> buttonLabel == LoadingLabel)
    }

    /** A freshly loaded form: empty inputs and an enabled button with the
        label the markup gives it. */
    constructor (initialLabel: string, presenter: Presenter)
      requires presenter.Valid()
      ensures Valid() && this.presenter == presenter
      ensures Data() == FormData("", "", "", "", "")
      ensures buttonLabel == initialLabel && !buttonDisabled && pending == Idle
    {
      name, email, phone, service, message := "", "", "", "", "";
      buttonLabel, buttonDisabled, pending := initialLabel, false, Idle;
      this.presenter := presenter;
    }

    /** The user types into the inputs; nothing else changes. */
    method Edit(d: FormData)
      requires Valid()
      modifies this
      ensures Valid() && Data() == d
      ensures buttonLabel == old(buttonLabel) && buttonDisabled == old(buttonDisabled)
      ensures pending == old(pending)
    {
      name, email, phone, service, message := d.name, d.email, d.phone, d.service, d.message;
    }

    /** The `submit` event. The browser does not submit through a disabled
        submit button, hence the precondition. On a failed check the error
        is shown and nothing else changes; on success the button is disabled,
        its label swapped, and the name and old label are kept for `Complete`. */
    method Submit() returns (v: Verdict)
      requires Valid() && !buttonDisabled
      modifies this, presenter
      ensures Valid()
      ensures v == Validate(old(Data()))
      ensures Data() == old(Data())
      ensures v != Ok ==>
        buttonLabel == old(buttonLabel) && !buttonDisabled && pending == Idle &&
        presenter.shown == [Notice(old(presenter.nextId), ErrorMessage(v), Error)] &&
        presenter.timers == old(presenter.timers) + {old(presenter.nextId)}
      ensures v == Ok ==>
        buttonDisabled && buttonLabel == LoadingLabel &&
        pending == Submitting(old(name), old(buttonLabel)) &&
        unchanged(presenter)
    {
      var d := Data();
      v := Validate(d);
      if v == Ok {
        pending := Submitting(d.name, buttonLabel);
        buttonLabel := LoadingLabel;
        buttonDisabled := true;
      } else {
        var _ := presenter.Show(ErrorMessage(v), Error);
      }
    }

    /** The simulated request finishes: thank the submitter by the name
        captured at submission, reset the inputs, restore the saved label
        and enable the button. */
    method Complete()
      requires Valid() && pending.Submitting?
      modifies this, presenter
      ensures Valid()
      ensures presenter.shown == [Notice(old(presenter.nextId), Thanks(old(pending.name)), Success)]
      ensures presenter.timers == old(presenter.timers) + {old(presenter.nextId)}
      ensures Data() == FormData("", "", "", "", "")
      ensures buttonLabel == old(pending.savedLabel) && !buttonDisabled && pending == Idle
    {
      var _ := presenter.Show(Thanks(pending.name), Success);
      name, email, phone, service, message := "", "", "", "", "";
      buttonLabel := pending.savedLabel;
      buttonDisabled := false;
      pending := Idle;
    }
  }

  /** A valid submission (name Olena, address olena@example.com, service
      consult, message Hello), seen through the button's label and state
      while the simulated request is pending and after it completes. */
  method AcceptedScenario() returns (during: string, disabledDuring: bool, after: string,
                                     disabledAfter: bool, fields: FormData, shown: seq<Notice>)
    ensures during == LoadingLabel && disabledDuring
    ensures after == "Send" && !disabledAfter
    ensures fields == FormData("", "", "", "", "")
    ensures |shown| == 1 && shown[0].message == Thanks("Olena") && shown[0].kind == Success
  {
    var p := new Presenter();
    var f := new Form("Send", p);
    var d := FormData("Olena", "olena@example.com", "", "consult", "Hello");
    f.Edit(d);
    ScenarioAccepted();
    var v := f.Submit();
    assert v == Ok;
    during, disabledDuring := f.buttonLabel, f.buttonDisabled;
    f.Complete();
    after, disabledAfter, fields, shown := f.buttonLabel, f.buttonDisabled, f.Data(), p.shown;
  }

  /** A submission with an empty name and the address `x`: an error is
      shown, the button is never disabled and no completion is scheduled. */
  method RejectedScenario() returns (buttonText: string, disabled: bool, waiting: bool, shown: seq<Notice>)
    ensures buttonText == "Send" && !disabled && !waiting
    ensures |shown| == 1 && shown[0].message == AskName && shown[0].kind == Error
  {
    var p := new Presenter();
    var f := new Form("Send", p);
    var d := FormData("", "x", "", "", "");
    f.Edit(d);
    ScenarioRejected();
    var v := f.Submit();
    assert v == MissingName;
    buttonText, disabled, waiting, shown := f.buttonLabel, f.buttonDisabled, f.pending.Submitting?, p.shown;
  }
}
