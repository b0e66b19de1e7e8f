/**
 * The contact-form controller: inline field errors, the submit flow (validate,
 * enter the busy state, hand the draft to the mail client, report, leave the
 * busy state) and the single notification slot.
 */
module Form {
  import opened FormValidation

  const Recipient: string := "ayahady052@gmail.com"
  const SentText: string := "Email client opened! Please send the message from your email app."
  const FailedText: string := "Sorry, there was an error. Please try sending an email directly to ayahady052@gmail.com"

  /** The inline error `validateForm` shows for a failing field. */
  function SubmitError(f: Field): (msg: string)
    ensures msg != ""
  {
    match f
    case Name => "Please enter a valid name (at least 2 characters)"
    case Email => "Please enter a valid email address"
    case Subject => "Please enter a subject (at least 3 characters)"
    case Message => "Please enter a message (at least 10 characters)"
  }

  /** The inline error `validateField` shows for a failing field. */
  function BlurError(f: Field): (msg: string)
    ensures msg != ""
  {
    match f
    case Name => "Name must be at least 2 characters"
    case Email => "Please enter a valid email address"
    case Subject => "Subject must be at least 3 characters"
    case Message => "Message must be at least 10 characters"
  }

  /** The inline error of field `f` after `validateForm`: its message when it fails, what it was otherwise. */
  function AfterSubmitCheck(previous: string, f: Field, data: FormData): (e: string)
  {
    if SubmitFieldOk(f, data.Get(f)) then previous else SubmitError(f)
  }

  /** The four checks of `validateForm`, one field after the other, give each field its own `AfterSubmitCheck`. */
  lemma SubmitCheckFields(e0: map<Field, string>, e1: map<Field, string>, e2: map<Field, string>,
                          e3: map<Field, string>, e4: map<Field, string>, data: FormData)
    requires forall f: Field :: f in e0
    requires e1 == e0[Name := AfterSubmitCheck(e0[Name], Name, data)]
    requires e2 == e1[Email := AfterSubmitCheck(e1[Email], Email, data)]
    requires e3 == e2[Subject := AfterSubmitCheck(e2[Subject], Subject, data)]
    requires e4 == e3[Message := AfterSubmitCheck(e3[Message], Message, data)]
    ensures forall f: Field :: f in e4 && e4[f] == AfterSubmitCheck(e0[f], f, data)
    ensures forall f: Field :: e4[f] == if f in FailingFields(data) then SubmitError(f) else e0[f]
  {
    forall f: Field
      ensures f in e4 && e4[f] == AfterSubmitCheck(e0[f], f, data)
      ensures e4[f] == if f in FailingFields(data) then SubmitError(f) else e0[f]
    {
      FailingFieldsExact(data, f);
      match f
      case Name =>
      case Email =>
      case Subject =>
      case Message =>
    }
  }

  /** The subject and the body of the mail draft handed to the mail client. */
  datatype MailDraft = MailDraft(to: string, subject: string, body: string)

  function Compose(data: FormData): (m: MailDraft)
    ensures m.to == Recipient && m.subject == data.subject
  {
    MailDraft(Recipient, data.subject,
      "Name: " + data.name + "\nEmail: " + data.email + "\nSubject: " + data.subject + "\n\nMessage:\n" + data.message)
  }

  datatype Kind = Success | Error

  /** A `.notification` element; `id` tells apart the elements created one after another. */
  datatype Notification = Notification(id: nat, kind: Kind, message: string)

  /** What the submit flow does, in order. */
  datatype Event = BusyOn | BusyOff | HandOff(draft: MailDraft) | Notified(kind: Kind) | FormReset

  /** The notifications left once element `id` is removed (removing a detached element does nothing). */
  function Without(notes: seq<Notification>, id: nat): (r: seq<Notification>)
    ensures |r| <= |notes|
    ensures forall n :: n in r <==> n in notes && n.id != id
  {
    if |notes| == 0 then []
    else if notes[0].id == id then Without(notes[1..], id)
    else [notes[0]] + Without(notes[1..], id)
  }

  /** The steps of one submit flow of a valid draft whose hand-off of `m` `throws` or not. */
  function Flow(m: MailDraft, throws: bool): (events: seq<Event>)
  {
    [BusyOn, HandOff(m)] + (if throws then [Notified(Error)] else [Notified(Success), FormReset]) + [BusyOff]
  }

  const EmptyForm: FormData := FormData("", "", "", "")

  class FormManager {
    /** The current values of the four inputs. */
    var draft: FormData
    /** The text of each field's `.form-error` element ('' when cleared). */
    var errors: map<Field, string>
    /** The submit button's `loading` class and `disabled` flag. */
    var busy: bool
    /** The `.notification` elements in the document, in document order. */
    var notifications: seq<Notification>
    var nextId: nat
    /** The steps the submit flows have taken so far. */
    ghost var log: seq<Event>

    /** Between events: every field has an error slot, the button is idle and at most one notification is shown. */
    ghost predicate Valid()
      reads this
    {
      && (forall f: Field :: f in errors)
      && !busy
      && |notifications| <= 1
      && (forall i :: 0 <= i < |notifications| ==> notifications[i].id < nextId)
    }

    constructor ()
      ensures Valid() && draft == EmptyForm && notifications == [] && log == []
      ensures forall f: Field :: errors[f] == ""
    {
      draft := EmptyForm;
      errors := map[Name := "", Email := "", Subject := "", Message := ""];
      busy := false;
      notifications := [];
      nextId := 0;
      log := [];
      new;
      forall f: Field
        ensures f in errors
      {
        match f
        case Name =>
        case Email =>
        case Subject =>
        case Message =>
      }
    }

    /** The `input` listener: the browser stores the value and the field's error is cleared without re-checking. */
    method Input(f: Field, value: string)
      requires Valid()
      modifies this`draft, this`errors
      ensures Valid()
      ensures draft == old(draft).With(f, value)
      ensures errors == old(errors)[f := ""]
    {
      draft := draft.With(f, value);
      ClearError(f);
    }

    method ClearError(f: Field)
      modifies this`errors
      ensures errors == old(errors)[f := ""]
    {
      errors := errors[f := ""];
    }

    method ShowFieldError(f: Field, message: string)
      modifies this`errors
      ensures errors == old(errors)[f := message]
    {
      errors := errors[f := message];
    }

    /**
     * `validateForm`: true exactly when all four rules hold; an error is
     * shown for every failing field and no passing field is touched.
     */
    method ValidateForm(data: FormData) returns (isValid: bool)
      requires Valid()
      modifies this`errors
      ensures Valid()
      ensures isValid == FormValid(data)
      ensures forall f: Field :: errors[f] == AfterSubmitCheck(old(errors)[f], f, data)
      ensures forall f: Field :: errors[f] == if f in FailingFields(data) then SubmitError(f) else old(errors)[f]
    {
      ghost var e0 := errors;
      var nameOk := CheckOnSubmit(Name, data);
      ghost var e1 := errors;
      var emailOk := CheckOnSubmit(Email, data);
      ghost var e2 := errors;
      var subjectOk := CheckOnSubmit(Subject, data);
      ghost var e3 := errors;
      var messageOk := CheckOnSubmit(Message, data);
      isValid := nameOk && emailOk && subjectOk && messageOk;
      SubmitCheckFields(e0, e1, e2, e3, errors, data);
    }

    /** One of the four checks of `validateForm`: on failure field `f` shows its error and the verdict turns false. */
    method CheckOnSubmit(f: Field, data: FormData) returns (ok: bool)
      requires Valid()
      modifies this`errors
      ensures Valid()
      ensures ok == SubmitFieldOk(f, data.Get(f))
      ensures errors == old(errors)[f := AfterSubmitCheck(old(errors)[f], f, data)]
    {
      ok := true;
      if !SubmitFieldOk(f, data.Get(f)) {
        ShowFieldError(f, SubmitError(f));
        ok := false;
      }
    }

    /** `validateField` on blur: checks the trimmed value, shows its error or clears it. */
    method ValidateField(f: Field) returns (ok: bool)
      requires Valid()
      modifies this`errors
      ensures Valid()
      ensures ok == BlurFieldOk(f, draft.Get(f))
      ensures errors == old(errors)[f := if ok then "" else BlurError(f)]
    {
      var value := Trim(draft.Get(f));
      match f {
        case Name =>
          if Utf16Length(value) < 2 {
            ShowFieldError(f, BlurError(f));
            return false;
          }
        case Email =>
          if !IsValidEmail(value) {
            ShowFieldError(f, BlurError(f));
            return false;
          }
        case Subject =>
          if Utf16Length(value) < 3 {
            ShowFieldError(f, BlurError(f));
            return false;
          }
        case Message =>
          if Utf16Length(value) < 10 {
            ShowFieldError(f, BlurError(f));
            return false;
          }
      }
      ClearError(f);
      return true;
    }

    method SetLoadingState(loading: bool)
      modifies this`busy, this`log
      ensures busy == loading
      ensures log == old(log) + [if loading then BusyOn else BusyOff]
    {
      busy := loading;
      log := log + [if loading then BusyOn else BusyOff];
    }

    /**
     * `showNotification`: the first existing notification is removed and the
     * new one appended, so a single slot stays single.
     */
    method ShowNotification(message: string, kind: Kind)
      modifies this`notifications, this`nextId, this`log
      ensures notifications == (if |old(notifications)| > 0 then old(notifications)[1..] else []) + [Notification(old(nextId), kind, message)]
      ensures |old(notifications)| <= 1 ==> notifications == [Notification(old(nextId), kind, message)]
      ensures nextId == old(nextId) + 1
      ensures log == old(log) + [Notified(kind)]
    {
      if |notifications| > 0 {
        notifications := notifications[1..];
      }
      notifications := notifications + [Notification(nextId, kind, message)];
      nextId := nextId + 1;
      log := log + [Notified(kind)];
    }

    /** The close button or the auto-dismiss timer removes notification `id`, if it is still there. */
    method Dismiss(id: nat)
      requires Valid()
      modifies this`notifications
      ensures Valid()
      ensures notifications == Without(old(notifications), id)
    {
      notifications := Without(notifications, id);
    }

    /**
     * `handleSubmit`. An invalid draft only updates the inline errors. A valid
     * one enters the busy state, makes one hand-off attempt, shows exactly one
     * notification (success, or error when the hand-off `throws`), resets the
     * form only on success, and always leaves the busy state.
     */
    method HandleSubmit(throws: bool)
      requires Valid()
      modifies this
      ensures Valid()
      ensures forall f: Field :: errors[f] == if f in FailingFields(old(draft)) then SubmitError(f) else old(errors)[f]
      ensures !FormValid(old(draft)) ==>
        draft == old(draft) && notifications == old(notifications) && nextId == old(nextId) && log == old(log)
      ensures FormValid(old(draft)) ==>
        && notifications == [Notification(old(nextId), if throws then Error else Success, if throws then FailedText else SentText)]
        && draft == (if throws then old(draft) else EmptyForm)
        && log == old(log) + Flow(Compose(old(draft)), throws)
    {
      var data := draft;
      var isValid := ValidateForm(data);
      if !isValid {
        return;
      }
      Send(data, throws);
    }

    /**
     * The `try`/`catch`/`finally` of `handleSubmit`: busy on, one hand-off of
     * the composed draft, the notification for its outcome, the reset on
     * success only, busy off. The inline errors are not touched.
     */
    method Send(data: FormData, throws: bool)
      requires Valid()
      modifies this`draft, this`busy, this`notifications, this`nextId, this`log
      ensures Valid()
      ensures notifications == [Notification(old(nextId), if throws then Error else Success, if throws then FailedText else SentText)]
      ensures draft == (if throws then old(draft) else EmptyForm)
      ensures log == old(log) + Flow(Compose(data), throws)
    {
      SetLoadingState(true);
      var mail := Compose(data);
      log := log + [HandOff(mail)];
      if throws {
        ShowNotification(FailedText, Error);
      } else {
        ShowNotification(SentText, Success);
        draft := EmptyForm;
        log := log + [FormReset];
      }
      SetLoadingState(false);
    }
  }

  /** The busy state of a flow is entered before its hand-off and left after its notification. */
  lemma BusyBracketsHandOff(before: seq<Event>, m: MailDraft, throws: bool)
    ensures var after := before + Flow(m, throws);
      && after[|before|] == BusyOn
      && after[|before| + 1] == HandOff(m)
      && after[|after| - 1] == BusyOff
      && |set i | |before| <= i < |after| && after[i].HandOff?| == 1
  {
    var after := before + Flow(m, throws);
    assert (set i | |before| <= i < |after| && after[i].HandOff?) == {|before| + 1};
  }
}
