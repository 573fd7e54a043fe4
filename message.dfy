/**
 * The notification e-mail that `send_contact_email` builds for one accepted
 * submission (app.py, lines 34-51): four headers and a fixed plain-text
 * template. Handing the message to the mail server is not part of this
 * module; the contact flow takes the server's answer as an input.
 */
module Message {
  import opened Text
  import opened Wrappers

  /** The headers set on the `EmailMessage`, and the text given to
      `set_content`. */
  datatype MailMessage = MailMessage(subject: string, from: string, to: string, cc: string, body: string)

  const Subject := "New Portfolio Contact Submission"
  const NoMessage := "(no message)"

  /** The literal pieces of the body template, in order. */
  const Intro := "\nNew contact submitted from your portfolio:\n\nUser Email: "
  const PhoneLabel := "\nUser Phone: "
  const MessageLabel := "\nMessage: "

  predicate OneLine(s: string) {
    forall k :: 0 <= k < |s| ==> s[k] != '\n'
  }

  /** `notes if notes else "(no message)"`: an empty text is falsy. */
  function ShownNotes(notes: string): (shown: string)
    ensures notes != "" ==> shown == notes
    ensures notes == "" ==> shown == NoMessage
    ensures shown != ""
  {
    if notes != "" then notes else NoMessage
  }

  /** The body template filled in. */
  function Body(userEmail: string, userPhone: string, notes: string): string {
    Intro + (userEmail + (PhoneLabel + (userPhone + (MessageLabel + (ShownNotes(notes) + "\n")))))
  }

  /** The message `send_contact_email(to_email, from_email, _, user_email,
      user_phone, notes)` hands to the mail server; the submitter is copied. */
  function Compose(toEmail: string, fromEmail: string, userEmail: string, userPhone: string, notes: string): (m: MailMessage)
    ensures m.subject == Subject
    ensures m.from == fromEmail && m.to == toEmail && m.cc == userEmail
    ensures Intro <= m.body && m.body[|m.body| - 1] == '\n'
  {
    MailMessage(Subject, fromEmail, toEmail, userEmail, Body(userEmail, userPhone, notes))
  }

  /** The three values a reader of the body sees. */
  datatype BodyFields = BodyFields(userEmail: string, userPhone: string, message: string)

  /** Splits `s` at its first newline: the line before it, and the rest from
      the newline on (empty when there is no newline). */
  function CutLine(s: string): (r: (string, string))
    ensures OneLine(r.0) && r.0 + r.1 == s
    ensures r.1 == [] || r.1[0] == '\n'
  {
    var e := IndexOf(s, '\n');
    (s[..e], s[e..])
  }

  /** Reads a body written by the template back into its three values: the
      email and the phone each run to the end of their line, and the message
      runs to the final newline. `None` for a text the template cannot have
      produced. */
  function ParseBody(b: string): (r: Option<BodyFields>)
    ensures r.Some? ==> OneLine(r.value.userEmail) && OneLine(r.value.userPhone)
  {
    if Intro <= b then ParseFromEmail(b[|Intro|..]) else None
  }

  function ParseFromEmail(s: string): (r: Option<BodyFields>)
    ensures r.Some? ==> OneLine(r.value.userEmail) && OneLine(r.value.userPhone)
  {
    var (email, rest) := CutLine(s);
    if PhoneLabel <= rest then ParseFromPhone(email, rest[|PhoneLabel|..]) else None
  }

  function ParseFromPhone(email: string, s: string): (r: Option<BodyFields>)
    requires OneLine(email)
    ensures r.Some? ==> r.value.userEmail == email && OneLine(r.value.userPhone)
  {
    var (phone, rest) := CutLine(s);
    if MessageLabel <= rest then ParseMessage(email, phone, rest[|MessageLabel|..]) else None
  }

  function ParseMessage(email: string, phone: string, s: string): (r: Option<BodyFields>)
    ensures r.Some? ==> r.value.userEmail == email && r.value.userPhone == phone
    ensures r.Some? <==> |s| > 0 && s[|s| - 1] == '\n'
  {
    if |s| == 0 || s[|s| - 1] != '\n' then None else Some(BodyFields(email, phone, s[..|s| - 1]))
  }

  /** The body hides nothing: when the email and the phone fit on one line
      each, reading the body back gives the email, the phone and the notes,
      with "(no message)" in place of empty notes. */
  lemma BodyRoundTrip(userEmail: string, userPhone: string, notes: string)
    requires OneLine(userEmail) && OneLine(userPhone)
    ensures ParseBody(Body(userEmail, userPhone, notes)) == Some(BodyFields(userEmail, userPhone, ShownNotes(notes)))
  {
    var shown := ShownNotes(notes);
    AfterPrefix(Intro, userEmail + (PhoneLabel + (userPhone + (MessageLabel + (shown + "\n")))));
    FromEmailRoundTrip(userEmail, userPhone, shown);
  }

  lemma FromEmailRoundTrip(userEmail: string, userPhone: string, shown: string)
    requires OneLine(userEmail) && OneLine(userPhone)
    ensures ParseFromEmail(userEmail + (PhoneLabel + (userPhone + (MessageLabel + (shown + "\n")))))
         == Some(BodyFields(userEmail, userPhone, shown))
  {
    var tail' := MessageLabel + (shown + "\n");
    var tail := PhoneLabel + (userPhone + tail');
    CutLineAt(userEmail, tail);
    AfterPrefix(PhoneLabel, userPhone + tail');
    FromPhoneRoundTrip(userEmail, userPhone, shown);
  }

  lemma FromPhoneRoundTrip(userEmail: string, userPhone: string, shown: string)
    requires OneLine(userEmail) && OneLine(userPhone)
    ensures ParseFromPhone(userEmail, userPhone + (MessageLabel + (shown + "\n")))
         == Some(BodyFields(userEmail, userPhone, shown))
  {
    CutLineAt(userPhone, MessageLabel + (shown + "\n"));
    AfterPrefix(MessageLabel, shown + "\n");
    assert (shown + "\n")[..|shown|] == shown;
  }

  lemma AfterPrefix(p: string, s: string)
    ensures p <= p + s && (p + s)[|p|..] == s
  {
  }

  /** Cutting `line + tail` at its first newline, when `line` has none and
      `tail` starts with one, gives back `line` and `tail`. */
  lemma CutLineAt(line: string, tail: string)
    requires OneLine(line) && |tail| > 0 && tail[0] == '\n'
    ensures CutLine(line + tail) == (line, tail)
  {
    var s := line + tail;
    assert s[|line|] == '\n';
    assert forall k :: 0 <= k < |line| ==> s[k] == line[k];
    assert IndexOf(s, '\n') == |line|;
  }

  /** "(no message)" appears in the body exactly when the notes are empty, or
      are that very text. */
  lemma NoMessageExactlyWhenEmpty(notes: string)
    ensures ShownNotes(notes) == NoMessage <==> notes == "" || notes == NoMessage
  {
  }
}
