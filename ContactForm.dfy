/** The contact form's submit handler (validation, then a simulated send) and
    the completion step that its 2000 ms timer runs. */
module ContactForm {
  import opened Wrappers
  import opened EmailValidation
  import opened Notifications

  const FillAllFields := "Please fill in all fields."
  const EnterValidEmail := "Please enter a valid email address."
  const SentSuccessfully := "Thank you! Your message has been sent successfully."
  const SendingLabel := "Sending..."

  /** What the submit handler decides for the entered fields: the error
      message it shows, or None when it goes on to send. A field counts as
      missing only when it is the empty string: it is not trimmed. */
  function Rejection(name: string, email: string, message: string): (r: Option<string>)
    ensures r == Some(FillAllFields) <==> name == [] || email == [] || message == []
    ensures r == Some(EnterValidEmail) <==> name != [] && email != [] && message != [] && !WellFormedEmail(email)
    ensures r == None <==> name != [] && email != [] && message != [] && WellFormedEmail(email)
  {
    ValidEmailCharacterisation(email);
    if name == [] || email == [] || message == [] then Some(FillAllFields)
    else if !IsValidEmail(email) then Some(EnterValidEmail)
    else None
  }

  /** The form's three fields, its submit button, and the sends that have
      been started and not yet completed (each remembers the button label it
      saw when it started, as the timer's closure does). */
  class Form {
    var name: string
    var email: string
    var message: string
    var buttonText: string
    var buttonDisabled: bool
    var pendingLabels: seq<string>
    const notifier: NotificationSlot

    ghost predicate Valid()
      reads this, notifier
    {
      notifier.Valid()
    }

    constructor (notifier: NotificationSlot, buttonText: string)
      requires notifier.Valid()
      ensures Valid()
      ensures this.notifier == notifier && this.buttonText == buttonText
      ensures name == [] && email == [] && message == []
      ensures !buttonDisabled && pendingLabels == []
    {
      this.notifier := notifier;
      this.buttonText := buttonText;
      name, email, message := [], [], [];
      buttonDisabled := false;
      pendingLabels := [];
    }

    /** The submit handler. A rejected submission shows one error
        notification and changes nothing else; an accepted one labels the
        button "Sending...", disables it and schedules `CompleteSend`. */
    method Submit() returns (accepted: bool)
      requires Valid()
      modifies this, notifier
      ensures Valid()
      ensures name == old(name) && email == old(email) && message == old(message)
      ensures accepted <==> Rejection(name, email, message) == None
      ensures !accepted ==>
        && buttonText == old(buttonText) && buttonDisabled == old(buttonDisabled)
        && pendingLabels == old(pendingLabels)
        && notifier.attached == [NewToast(old(notifier.nextId), Rejection(name, email, message).value, "error")]
        && notifier.nextId == old(notifier.nextId) + 1
      ensures accepted ==>
        && buttonText == SendingLabel && buttonDisabled
        && pendingLabels == old(pendingLabels) + [old(buttonText)]
        && notifier.attached == old(notifier.attached) && notifier.nextId == old(notifier.nextId)
    {
      var error := Rejection(name, email, message);
      if error.Some? {
        var _ := notifier.Show(error.value, "error");
        accepted := false;
        return;
      }
      pendingLabels := pendingLabels + [buttonText];
      buttonText := SendingLabel;
      buttonDisabled := true;
      accepted := true;
    }

    /** The 2000 ms timer of the oldest started send: show the success
        notification, reset the form, restore the label it saved and
        re-enable the button. */
    method CompleteSend()
      requires Valid()
      requires pendingLabels != []
      modifies this, notifier
      ensures Valid()
      ensures notifier.attached == [NewToast(old(notifier.nextId), SentSuccessfully, "success")]
      ensures notifier.nextId == old(notifier.nextId) + 1
      ensures name == [] && email == [] && message == []
      ensures buttonText == old(pendingLabels[0]) && !buttonDisabled
      ensures pendingLabels == old(pendingLabels[1..])
    {
      var _ := notifier.Show(SentSuccessfully, "success");
      name, email, message := [], [], [];
      buttonText := pendingLabels[0];
      buttonDisabled := false;
      pendingLabels := pendingLabels[1..];
    }
  }

  /** A whole accepted submission from an idle form: after `Submit` and its
      `CompleteSend` the button has its original label and is enabled again,
      the fields are empty and the one notification is the success message. */
  method SubmitAndComplete(form: Form) returns (accepted: bool)
    requires form.Valid() && form.pendingLabels == []
    modifies form, form.notifier
    ensures form.Valid()
    ensures accepted <==> old(Rejection(form.name, form.email, form.message)) == None
    ensures accepted ==>
      && form.buttonText == old(form.buttonText) && !form.buttonDisabled
      && form.name == [] && form.email == [] && form.message == []
      && form.pendingLabels == []
      && |form.notifier.attached| == 1 && form.notifier.attached[0].message == SentSuccessfully
  {
    accepted := form.Submit();
    if accepted {
      form.CompleteSend();
    }
  }
}
