/**
 * The contact dialog's submission flow (app.py, lines 608-641): validate the
 * email, then the phone; on success record the stripped fields in the
 * session, and only then try to send the notification e-mail, whose failure
 * is reported but never undoes the record.
 *
 * The wall clock, the secrets store and the mail server are inputs: the
 * timestamp text, a map of secrets, and the server's answer.
 */
module Contact {
  import opened Wrappers
  import opened Text
  import opened Validators
  import opened Message

  /** One entry of `st.session_state.contact_submissions`. */
  datatype Submission = Submission(timestamp: string, email: string, phone: string, notes: string)

  /** What the mail server does with the message: the SSL connection, login
      and `send_message` either complete or raise. */
  datatype Delivery = Delivered | Refused(detail: string)

  /** What the `except Exception` around the send catches: a secret that is
      not configured, or a refusal by the mail server. */
  datatype SendError = MissingSecret(key: string) | TransportFailed(attempted: MailMessage, detail: string)

  datatype Field = EmailField | PhoneField

  /** How one run of the dialog ends. */
  datatype Outcome =
    | NotSubmitted                    // the form was not submitted
    | Rejected(field: Field)          // a check failed; `st.stop()`
    | Sent(message: MailMessage)      // recorded and e-mailed
    | SavedNotSent(error: SendError)  // recorded, e-mail failed
  {
    /** The submission was recorded. */
    predicate Recorded() {
      Sent? || SavedNotSent?
    }
  }

  /** The dialog's feedback widgets. */
  datatype Notice = ErrorBox(text: string) | SuccessBox(text: string) | ErrorDetail(error: SendError)

  const EmailKey := "EMAIL_TO"
  const FromKey := "EMAIL_FROM"
  const PasswordKey := "GMAIL_APP_PASSWORD"

  const InvalidEmailText := "Please enter a valid email."
  const InvalidPhoneText := "Please enter a valid phone number."
  const SentText := "Thanks! Your details were sent \U{2705} (you also received a copy)"
  const NotSentText := "Saved your submission, but email sending failed."

  /** What the dialog shows for an outcome: `st.error`, `st.success`, and for
      a failed send also `st.write("Error:", str(e))`. */
  function Feedback(o: Outcome): (shown: seq<Notice>)
    ensures o.NotSubmitted? <==> shown == []
    ensures o.Rejected? ==> shown == [ErrorBox(if o.field == EmailField then InvalidEmailText else InvalidPhoneText)]
    ensures o.Sent? ==> shown == [SuccessBox(SentText)]
    ensures o.SavedNotSent? ==> shown == [ErrorBox(NotSentText), ErrorDetail(o.error)]
  {
    match o
    case NotSubmitted => []
    case Rejected(EmailField) => [ErrorBox(InvalidEmailText)]
    case Rejected(PhoneField) => [ErrorBox(InvalidPhoneText)]
    case Sent(_) => [SuccessBox(SentText)]
    case SavedNotSent(e) => [ErrorBox(NotSentText), ErrorDetail(e)]
  }

  /** The first field whose check fails, the email before the phone. */
  function FirstInvalid(email: Option<string>, phone: Option<string>): (r: Option<Field>)
    ensures r == None <==> EmailAccepted(email) && PhoneAccepted(phone)
    ensures r == Some(EmailField) <==> !EmailAccepted(email)
    ensures r == Some(PhoneField) <==> EmailAccepted(email) && !PhoneAccepted(phone)
  {
    if !EmailAccepted(email) then Some(EmailField)
    else if !PhoneAccepted(phone) then Some(PhoneField)
    else None
  }

  /** The record appended for accepted fields (lines 622-627). */
  function NewSubmission(timestamp: string, email: string, phone: string, notes: string): (s: Submission)
    ensures s.timestamp == timestamp
    ensures s.email == Strip(email) && s.phone == Strip(phone) && s.notes == Strip(notes)
  {
    Submission(timestamp, Strip(email), Strip(phone), Strip(notes))
  }

  /** The `try` block (lines 629-638): look up the three secrets in order,
      compose the message from the recorded fields and hand it to the mail
      server. */
  function Notify(secrets: map<string, string>, s: Submission, delivery: Delivery): (o: Outcome)
    ensures o.Recorded()
    ensures o.Sent? <==> EmailKey in secrets && FromKey in secrets && PasswordKey in secrets && delivery.Delivered?
    ensures o.Sent? ==> o.message == Compose(secrets[EmailKey], secrets[FromKey], s.email, s.phone, s.notes)
    ensures EmailKey !in secrets ==> o == SavedNotSent(MissingSecret(EmailKey))
  {
    if EmailKey !in secrets then SavedNotSent(MissingSecret(EmailKey))
    else if FromKey !in secrets then SavedNotSent(MissingSecret(FromKey))
    else if PasswordKey !in secrets then SavedNotSent(MissingSecret(PasswordKey))
    else
      var m := Compose(secrets[EmailKey], secrets[FromKey], s.email, s.phone, s.notes);
      match delivery
      case Delivered => Sent(m)
      case Refused(detail) => SavedNotSent(TransportFailed(m, detail))
  }

  /** How a run of the dialog ends, for the given form values and
      surroundings. */
  function DialogOutcome(submitted: bool, email: Option<string>, phone: Option<string>, notes: string,
                         timestamp: string, secrets: map<string, string>, delivery: Delivery): (o: Outcome)
    ensures o.NotSubmitted? <==> !submitted
    ensures o.Recorded() <==> submitted && EmailAccepted(email) && PhoneAccepted(phone)
    ensures o == Rejected(EmailField) <==> submitted && !EmailAccepted(email)
    ensures o == Rejected(PhoneField) <==> submitted && EmailAccepted(email) && !PhoneAccepted(phone)
  {
    if !submitted then NotSubmitted
    else match FirstInvalid(email, phone)
      case Some(field) => Rejected(field)
      case None => Notify(secrets, NewSubmission(timestamp, OrEmpty(email), OrEmpty(phone), notes), delivery)
  }

  /** The session state that holds the recorded submissions. */
  class SessionState {
    /** `st.session_state["contact_submissions"]`; `None` until the first
        accepted submission creates it. */
    var contactSubmissions: Option<seq<Submission>>

    /** A fresh session: the key is absent. */
    constructor ()
      ensures contactSubmissions == None
    {
      contactSubmissions := None;
    }

    /** The recorded submissions in the order they were accepted. */
    function Submissions(): seq<Submission>
      reads this
    {
      contactSubmissions.GetOr([])
    }

    /** One run of `contact_dialog` after the form has been filled in. */
    method ContactDialog(submitted: bool, email: Option<string>, phone: Option<string>, notes: string,
                         timestamp: string, secrets: map<string, string>, delivery: Delivery)
      returns (outcome: Outcome)
      modifies this
      ensures outcome == DialogOutcome(submitted, email, phone, notes, timestamp, secrets, delivery)
      // a rejected or absent submission changes nothing
      ensures !outcome.Recorded() ==> contactSubmissions == old(contactSubmissions)
      // an accepted one is appended once, at the end, whatever the mail server does
      ensures outcome.Recorded() ==>
        contactSubmissions == Some(old(Submissions()) + [NewSubmission(timestamp, OrEmpty(email), OrEmpty(phone), notes)])
      ensures outcome.Recorded() ==> |Submissions()| == |old(Submissions())| + 1
    {
      if !submitted {
        return NotSubmitted;
      }
      var emailOk := EmailAccepted(email);
      var phoneOk := PhoneAccepted(phone);
      if !emailOk {
        return Rejected(EmailField);
      }
      if !phoneOk {
        return Rejected(PhoneField);
      }
      if contactSubmissions == None {
        contactSubmissions := Some([]);
      }
      var record := NewSubmission(timestamp, email.value, phone.value, notes);
      contactSubmissions := Some(contactSubmissions.value + [record]);
      outcome := Notify(secrets, record, delivery);
    }
  }

  /** When the email is rejected the phone plays no part: the outcome is the
      same for every phone. */
  lemma EmailCheckedFirst(email: Option<string>, phone: Option<string>, phone': Option<string>, notes: string,
                          timestamp: string, secrets: map<string, string>, delivery: Delivery)
    requires !EmailAccepted(email)
    ensures DialogOutcome(true, email, phone, notes, timestamp, secrets, delivery)
         == DialogOutcome(true, email, phone', notes, timestamp, secrets, delivery)
         == Rejected(EmailField)
  {
  }

  /** A message that goes out is addressed as `send_contact_email` sets the
      headers, copies the submitter at the stored email, and its body gives
      back the stored email, phone and notes, with "(no message)" for empty
      notes. */
  lemma SentMessageContents(email: Option<string>, phone: Option<string>, notes: string,
                            timestamp: string, secrets: map<string, string>, delivery: Delivery)
    requires DialogOutcome(true, email, phone, notes, timestamp, secrets, delivery).Sent?
    ensures var m := DialogOutcome(true, email, phone, notes, timestamp, secrets, delivery).message;
      && m.subject == Subject
      && m.to == secrets[EmailKey] && m.from == secrets[FromKey]
      && m.cc == Strip(OrEmpty(email))
      && IsEmailText(m.cc)
      && ParseBody(m.body) == Some(BodyFields(Strip(OrEmpty(email)), Strip(OrEmpty(phone)), ShownNotes(Strip(notes))))
  {
    var e, p := OrEmpty(email), OrEmpty(phone);
    StrippedEmail(e);
    StrippedEmailOneLine(e);
    StrippedPhoneOneLine(p);
    BodyRoundTrip(Strip(e), Strip(p), Strip(notes));
  }

  /** A message is composed and offered to the mail server only when all three
      secrets are configured; the first missing one, in lookup order, is the
      error reported, and the mail server's refusal carries the message it
      refused. */
  lemma NotifyFailures(secrets: map<string, string>, s: Submission, delivery: Delivery)
    ensures EmailKey in secrets && FromKey !in secrets ==>
      Notify(secrets, s, delivery) == SavedNotSent(MissingSecret(FromKey))
    ensures EmailKey in secrets && FromKey in secrets && PasswordKey !in secrets ==>
      Notify(secrets, s, delivery) == SavedNotSent(MissingSecret(PasswordKey))
    ensures EmailKey in secrets && FromKey in secrets && PasswordKey in secrets && delivery.Refused? ==>
      Notify(secrets, s, delivery)
        == SavedNotSent(TransportFailed(Compose(secrets[EmailKey], secrets[FromKey], s.email, s.phone, s.notes), delivery.detail))
  {
  }

  /** The record does not depend on anything the send uses: the same entry is
      appended whatever the secrets and the mail server's answer. */
  lemma RecordBeforeSend(email: Option<string>, phone: Option<string>, notes: string, timestamp: string,
                         secrets: map<string, string>, delivery: Delivery,
                         secrets': map<string, string>, delivery': Delivery)
    requires DialogOutcome(true, email, phone, notes, timestamp, secrets, delivery).Recorded()
    ensures DialogOutcome(true, email, phone, notes, timestamp, secrets', delivery').Recorded()
  {
  }

  /** The example run: a valid email and phone, no notes and a working mail
      server leave one entry with empty notes, show the success text, and copy
      the submitter. */
  method ExampleRun() returns (session: SessionState, outcome: Outcome)
    ensures session.Submissions() == [Submission("2025-01-01T09:00:00", "a@b.com", "123-456-7890", "")]
    ensures outcome.Sent? && outcome.message.cc == "a@b.com"
    ensures Feedback(outcome) == [SuccessBox(SentText)]
  {
    session := new SessionState();
    var secrets := map[EmailKey := "owner@example.com", FromKey := "site@example.com", PasswordKey := "secret"];
    ExampleOutcome(secrets);
    outcome := session.ContactDialog(true, Some("a@b.com"), Some("123-456-7890"), "", "2025-01-01T09:00:00", secrets, Delivered);
  }

  /** The example's fields pass both checks, are stored as they are, and with
      every secret configured the message goes out copied to "a@b.com". */
  lemma ExampleOutcome(secrets: map<string, string>)
    requires EmailKey in secrets && FromKey in secrets && PasswordKey in secrets
    ensures EmailAccepted(Some("a@b.com")) && PhoneAccepted(Some("123-456-7890"))
    ensures NewSubmission("2025-01-01T09:00:00", "a@b.com", "123-456-7890", "")
         == Submission("2025-01-01T09:00:00", "a@b.com", "123-456-7890", "")
    ensures DialogOutcome(true, Some("a@b.com"), Some("123-456-7890"), "", "2025-01-01T09:00:00", secrets, Delivered)
         == Sent(Compose(secrets[EmailKey], secrets[FromKey], "a@b.com", "123-456-7890", ""))
  {
    ExampleSubmission();
    var record := NewSubmission("2025-01-01T09:00:00", OrEmpty(Some("a@b.com")), OrEmpty(Some("123-456-7890")), "");
    assert record == Submission("2025-01-01T09:00:00", "a@b.com", "123-456-7890", "");
    assert FirstInvalid(Some("a@b.com"), Some("123-456-7890")) == None;
  }

  lemma ExampleSubmission()
    ensures EmailAccepted(Some("a@b.com")) && PhoneAccepted(Some("123-456-7890"))
    ensures NewSubmission("2025-01-01T09:00:00", "a@b.com", "123-456-7890", "")
         == Submission("2025-01-01T09:00:00", "a@b.com", "123-456-7890", "")
  {
    ExampleEmail();
    ExamplePhone();
    StripNoSpace("");
  }

  lemma ExamplePhone()
    ensures PhoneMatches("123-456-7890") && Strip("123-456-7890") == "123-456-7890"
  {
    PhoneAcceptsDashed();
    StripAt("123-456-7890", 0, 12);
    assert "123-456-7890"[0..12] == "123-456-7890";
  }

  lemma ExampleEmail()
    ensures EmailMatches("a@b.com") && Strip("a@b.com") == "a@b.com"
  {
    AcceptAt("a@b.com", 1, 3);
    StrippedEmail("a@b.com");
    NoFinalNewline("a@b.com");
  }
}
