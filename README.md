# Contact-submission pipeline of the portfolio site

The portfolio page (`app.py`) is almost entirely markup and static resume
data. Its only decision logic is the contact dialog. A visitor gives an email,
a phone number and optional notes. Two regular expressions check the email
and then the phone. An accepted submission is stripped of surrounding
whitespace and appended to the session's `contact_submissions` list. Only
after that is a notification e-mail composed and sent. Its failure is
reported to the visitor and never undoes the record. Beside this sits one
integer clamp for the skill bars.

The Dafny model has six modules:

- `Text` (text.dfy): Python's whitespace class (`str.isspace()`, which is what
  `\s` matches and what `str.strip()` removes) and `Strip`, characterised by
  the reference lemma `StripUnique`.
- `Validators` (validators.dfy): the email pattern `^[^@\s]+@[^@\s]+\.[^@\s]+$`
  and the phone pattern `^\+?[0-9 ()-]{7,20}$`. Each is given as a ghost
  predicate that reads the regular expression literally, and as a decision
  function. Lemmas prove the two agree. Python's `$` also matches just before
  one final newline. The model matches the pattern body against the text
  without that newline (`WithoutFinalNewline`). `EmailDollar` and
  `PhoneDollar` prove this equals the literal reading: the body covers the
  whole text, or the whole text but one final newline. A
  missing field is matched as `""` (`OrEmpty`).
- `Message` (message.dfy): the headers and body of the notification e-mail,
  plus a reader `ParseBody` that recovers the email, phone and message from
  the body, proved to invert the template.
- `Contact` (contact.dfy): the session state as a class with the
  `contactSubmissions` field. The method `ContactDialog` follows
  `contact_dialog` step by step. Pure functions (`DialogOutcome`, `Notify`,
  `Feedback`) state the outcome and the feedback it shows.
- `Skills` (skills.dfy): the percentage clamp.
- `Wrappers` (wrappers.dfy): `Option`.

The model takes three things as inputs. The wall clock is the `timestamp`
text. The secrets store is a `map<string, string>`. The mail server's answer
is a `Delivery` value (`Delivered` or `Refused(detail)`).

Three facts about the code that a reader might expect otherwise:

- The patterns contain no letters, so a case-insensitive flag would change
  nothing; the code passes none.
- The stored fields are `strip()` of the checked text. A stored email passes
  the check again (`StrippedEmail`). A stored phone need not: `"   1234 "`
  passes and is stored as `"1234"`, which fails (`StrippedPhoneMayFail`).
- `or ""` applies to email and phone only. `notes` is used as given, and the
  text area always supplies a string.

Where each source line is modelled:

- The email check at app.py:609 is `Validators.EmailAccepted`, which matches
  `OrEmpty(email)` with `Validators.EmailMatches`. Its literal reading of the
  pattern is `Validators.EmailPattern`.
- The phone check at app.py:610 is `Validators.PhoneAccepted`, which matches
  `OrEmpty(phone)` with `Validators.PhoneMatches`. Its literal reading is
  `Validators.PhonePattern`.
- `\s` and `str.strip()` (app.py:609-610, 624-626) use `Text.IsSpace`.
- The body template at app.py:44-50 is `Message.Body`; the headers at
  app.py:36-42 are `Message.Compose`.

## Model

| member | source | states |
|---|---|---|
| `Text.LeadingSpaces` | app.py:624-626 | the count of opening whitespace characters: all of them are whitespace and the next one is not |
| `Text.TrailingSpaces` | app.py:624-626 | the count of closing whitespace characters: all of them are whitespace and the one before is not |
| `Text.Strip` | app.py:624-626 | `strip()` returns an infix of its input; everything removed before and after it is whitespace; the result is empty or starts and ends with non-whitespace |
| `Text.StripUnique` | app.py:624-626 | for any whitespace `a` and `b` and any `r` with non-whitespace ends, `Strip(a + r + b) == r` (the reference characterisation) |
| `Text.StripAt` | app.py:624-626 | `strip()` located by positions: whitespace before `i` and from `j` on gives `s[i..j]` |
| `Text.StripIdempotent` | app.py:624-626 | stripping twice is stripping once |
| `Text.StripNoSpace` | app.py:624-626 | a text without whitespace is left unchanged |
| `Text.StripNewlineOnlyLast` | app.py:624-626 | a text with a newline at most at its end strips to a text with no newline |
| `Validators.OrEmpty` | app.py:609-610 | `field or ""`: a missing field is matched as the empty text |
| `Validators.WithoutFinalNewline` | app.py:609-610 | Python's `$` matches at the end or just before one final newline; this function gives the text the pattern body must cover |
| `Text.IndexOf` | app.py:609 | the index of the first occurrence, or the length when there is none; no earlier position holds the character |
| `Validators.EmailTextIffPattern` | app.py:609 | the email decision procedure accepts exactly the texts that are local run, `@`, run, `.`, run with runs over `[^@\s]` (both directions) |
| `Validators.EmailTextToPattern` | app.py:609 | every text the decision procedure accepts has such a decomposition |
| `Validators.EmailPatternAt` | app.py:609 | every such decomposition, at any `@` and `.` positions, is accepted |
| `Validators.EmailOneAtNoSpace` | app.py:609 | an accepted email body holds exactly one `@` and no whitespace |
| `Validators.EmailOneAt` | app.py:609 | an accepted email body holds exactly one `@` |
| `Validators.EmailNoSpace` | app.py:609 | an accepted email body holds no whitespace |
| `Validators.OccurrencesAppend` | app.py:609 | occurrence counts add up over concatenation |
| `Validators.OccurrencesAbsent` | app.py:609 | a character that never occurs has count zero |
| `Validators.EmailFromParts` | app.py:609 | any run, `@`, run, `.`, run is accepted; the runs may hold dots themselves |
| `Validators.EmailAcceptsPlaceholder` | app.py:603 | the form's placeholder `name@gmail.com` is accepted |
| `Validators.EmailAcceptsDottedDomain` | app.py:609 | `a@b.c.d` is accepted |
| `Validators.EmailRejectsNoAt` | app.py:609 | `bad-email` is rejected |
| `Validators.EmailRejectsEmptyTld` | app.py:609 | `a@b.` is rejected |
| `Validators.EmailRejectsEmptyHost` | app.py:609 | `a@.b` is rejected |
| `Validators.EmailRejectsTwoAts` | app.py:609 | `a@@b.c` is rejected |
| `Validators.EmailRejectsSpace` | app.py:609 | `a b@c.d` is rejected |
| `Validators.EmailFinalNewline` | app.py:609 | `a@b.c` followed by a newline is accepted though it is not an email body (Python's `$`) |
| `Validators.StrippedEmail` | app.py:609-627 | for an accepted email, `strip()` removes exactly the optional final newline, and the stored email is an email body without whitespace that passes the check again |
| `Validators.EmailDollar` | app.py:609 | the check accepts exactly when the pattern body covers the whole text, or the whole text but one final newline (both directions) |
| `Validators.StrippedEmailOneLine` | app.py:609-634 | the stored email holds no newline |
| `Validators.PhoneTextIffPattern` | app.py:610 | taking a leading `+` greedily accepts exactly what either reading of `\+?` accepts (both directions) |
| `Validators.PhoneDollar` | app.py:610 | the check accepts exactly when the pattern body covers the whole text, or the whole text but one final newline (both directions) |
| `Validators.PhoneShape` | app.py:610 | a phone body is accepted exactly when every character is in `[0-9 ()-]` except a `+` in front, and 7 to 20 remain without that `+` (both directions) |
| `Validators.PhoneRejectsInnerPlus` | app.py:610 | a `+` anywhere but first is rejected |
| `Validators.PhoneRejectsLength` | app.py:610 | fewer than 7 or more than 21 characters, not counting a final newline, are rejected |
| `Validators.PhoneAcceptAt` | app.py:610 | a class run of 7 to 20 characters, with or without a leading `+` and with no final newline, is accepted |
| `Validators.PhoneRejectAt` | app.py:610 | a text with no final newline that is not such a run is rejected |
| `Validators.PhoneAcceptsPagePhone` | app.py:500 | the page's phone number `+1 (469) 347 5994` is accepted |
| `Validators.PhoneAcceptsPlaceholder` | app.py:604 | the form's placeholder `+1 469 347 5994` is accepted |
| `Validators.PhoneAcceptsDashed` | app.py:610 | `123-456-7890` is accepted |
| `Validators.PhoneRejectsLetters` | app.py:610 | `abc` is rejected |
| `Validators.PhoneRejectsShortAndLong` | app.py:610 | six digits and twenty-one digits are rejected |
| `Validators.PhoneRejectsTwoPlus` | app.py:610 | `++1234567` is rejected |
| `Validators.StrippedPhoneMayFail` | app.py:610-625 | `"   1234 "` is accepted, but its stripped form `"1234"`, which is stored, is rejected |
| `Validators.PhoneNewlineOnlyLast` | app.py:610 | an accepted phone can hold a newline only as its last character |
| `Validators.StrippedPhoneOneLine` | app.py:610-635 | the stored phone holds no newline |
| `Message.ShownNotes` | app.py:49 | the notes when they are non-empty, `"(no message)"` when they are empty; never empty |
| `Message.NoMessageExactlyWhenEmpty` | app.py:49 | `"(no message)"` is shown exactly when the notes are empty or are that very text |
| `Message.Compose` | app.py:34-51 | subject `New Portfolio Contact Submission`, From the sender, To the owner, Cc the submitter; the body starts with the template's intro and ends with a newline |
| `Message.CutLine` | app.py:45-50 | splitting at the first newline gives a line without newline and a rest that starts with one, and the two rebuild the text |
| `Message.ParseBody` | app.py:45-50 | a body read back yields an email and a phone of one line each |
| `Message.ParseFromEmail` | app.py:45-50 | reading from the email line on yields one-line email and phone |
| `Message.ParseFromPhone` | app.py:45-50 | reading from the phone line on keeps the email already read |
| `Message.ParseMessage` | app.py:45-50 | the message is recovered exactly when the text ends in a newline |
| `Message.BodyRoundTrip` | app.py:45-51 | with a one-line email and phone, reading the composed body back gives the email, the phone and the notes, with `"(no message)"` for empty notes |
| `Message.FromEmailRoundTrip` | app.py:45-51 | the round trip from the email line on |
| `Message.FromPhoneRoundTrip` | app.py:45-51 | the round trip from the phone line on |
| `Message.CutLineAt` | app.py:45-50 | cutting a one-line text followed by a newline-led tail gives back both |
| `Message.AfterPrefix` | app.py:45-50 | a text starts with its prefix, and dropping the prefix gives the rest |
| `Contact.Feedback` | app.py:612-641 | no notice without a submission; the field-specific error for a rejection; the success text after a send; the "Saved your submission, but email sending failed." error plus the error itself after a failed send |
| `Contact.FirstInvalid` | app.py:609-618 | no failing field exactly when both checks pass; the email field exactly when the email fails; the phone field exactly when the email passes and the phone fails |
| `Contact.NewSubmission` | app.py:622-627 | the record holds the given timestamp and the stripped email, phone and notes |
| `Contact.Notify` | app.py:629-641 | the record is always kept; the message goes out exactly when all three secrets are present and the server delivers; what goes out is the composed message; a missing `EMAIL_TO` is reported as such |
| `Contact.DialogOutcome` | app.py:608-641 | nothing happens without a submission; the submission is recorded exactly when it is submitted and both checks pass; an email rejection exactly when the email fails; a phone rejection exactly when the email passes and the phone fails |
| `Contact.SessionState.constructor` | app.py:621 | a fresh session has no `contact_submissions` key |
| `Contact.SessionState.ContactDialog` | app.py:608-641 | the outcome is `DialogOutcome`; a rejection leaves the session untouched; an accepted submission appends exactly one record at the end, creating the list first if absent, whether the send succeeds or fails, so the count grows by one |
| `Contact.EmailCheckedFirst` | app.py:609-614 | when the email fails, the outcome is the email rejection for every phone |
| `Contact.SentMessageContents` | app.py:629-638 | a message that goes out has the fixed subject, the configured To and From, Cc equal to the stored email (which is an email body), and a body that reads back as the stored email, phone and notes |
| `Contact.NotifyFailures` | app.py:629-641 | the secrets are looked up in the order `EMAIL_TO`, `EMAIL_FROM`, `GMAIL_APP_PASSWORD`, and the first missing one is what is reported; a refused delivery carries the message that was refused |
| `Contact.RecordBeforeSend` | app.py:621-641 | whether a submission is recorded does not depend on the secrets or the mail server's answer |
| `Contact.ExampleRun` | app.py:608-638 | `a@b.com`, `123-456-7890`, no notes and a working server leave one record with empty notes, show the success text, and copy `a@b.com` |
| `Contact.ExampleOutcome` | app.py:608-638 | for that example every configured secret map leads to sending the composed message |
| `Contact.ExampleSubmission` | app.py:609-627 | the example's fields pass both checks and are stored unchanged |
| `Contact.ExamplePhone` | app.py:610-625 | `123-456-7890` is accepted and stored unchanged |
| `Contact.ExampleEmail` | app.py:609-624 | `a@b.com` is accepted and stored unchanged |
| `Skills.ClampPercent` | app.py:724 | the bar width lies in [0, 100]; a value in range is kept; below 0 gives 0 and above 100 gives 100 |
| `Skills.ClampMonotoneIdempotent` | app.py:724 | the clamp keeps the order of two values, and clamping twice is clamping once |

## Left out

- Sending over SMTP (app.py:53-55): a network call. Its result is the `Delivery` input.
- Building the `EmailMessage` object can itself raise, for example on a secret
  that contains a line break. The model folds every such exception into
  `Delivery.Refused`. MIME encoding and the line handling of `set_content` are
  not modelled.
- `app_password` is passed only to the SMTP login, so `Message.Compose` does
  not take it. The model keeps only the lookup of `GMAIL_APP_PASSWORD`, since a
  missing key aborts the send.
- The text of `str(e)` depends on the library, so it is not modelled. The
  feedback carries the error value (`Notice.ErrorDetail`) instead.
- `datetime.now().isoformat(timespec="seconds")` (app.py:623): the wall clock. The timestamp text is an input.
- The Streamlit widgets, the dialog and form, and the `clear_on_submit`
  behaviour are UI. The model keeps `st.stop()` as the early `return` and
  `submitted` as a boolean input.
- Image and resume file reads and base64 encoding (app.py:25-32): file-system I/O.
- CSS, markup, the page layout loops, the static resume tables and the feedback emoji lookup: display only, no logic.
- Skills.ClampPercent: `int(pct)` is not modelled because every value in the skills table is already an integer.
- Lone surrogate code points are not modelled. Python strings may contain them, but Dafny's `char` is a Unicode scalar value.
