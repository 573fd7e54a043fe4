/**
 * The two syntactic checks of the contact form (app.py, lines 609-610):
 *
 *   email  `^[^@\s]+@[^@\s]+\.[^@\s]+$`
 *   phone  `^\+?[0-9 ()-]{7,20}$`
 *
 * both applied with `re.match` to the field, or to "" when the field is None.
 * Each pattern is given twice: as a ghost predicate that reads the regular
 * expression literally (an existential over where its pieces start and end),
 * and as a function that decides it the way a matcher would. Lemmas tie the
 * two together and state what the patterns promise.
 */
module Validators {
  import opened Text
  import opened Wrappers

  /** `email or ""`: a missing field is matched as the empty text. */
  function OrEmpty(field: Option<string>): (s: string)
    ensures field.Some? ==> s == field.value
    ensures field.None? ==> s == ""
  {
    field.GetOr("")
  }

  /** Python's `$` matches at the very end, and also just before one final
      newline; `s` is matched against the pattern body on either reading. */
  function WithoutFinalNewline(s: string): (t: string)
    ensures |s| > 0 && s[|s| - 1] == '\n' ==> t + "\n" == s
    ensures !(|s| > 0 && s[|s| - 1] == '\n') ==> t == s
  {
    if |s| > 0 && s[|s| - 1] == '\n' then s[..|s| - 1] else s
  }

  /** Number of occurrences of `c` in `s`. */
  function Occurrences(s: string, c: char): nat
    decreases |s|
  {
    if |s| == 0 then 0 else (if s[0] == c then 1 else 0) + Occurrences(s[1..], c)
  }

  lemma {:induction false} OccurrencesAppend(s: string, t: string, c: char)
    ensures Occurrences(s + t, c) == Occurrences(s, c) + Occurrences(t, c)
    decreases |s|
  {
    if |s| == 0 {
      assert s + t == t;
    } else {
      assert (s + t)[1..] == s[1..] + t;
      OccurrencesAppend(s[1..], t, c);
    }
  }

  lemma {:induction false} OccurrencesAbsent(s: string, c: char)
    requires forall k :: 0 <= k < |s| ==> s[k] != c
    ensures Occurrences(s, c) == 0
    decreases |s|
  {
    if |s| > 0 {
      OccurrencesAbsent(s[1..], c);
    }
  }

  // ---------------------------------------------------------------- email

  /** One character of the class `[^@\s]`. */
  predicate RunChar(c: char) {
    c != '@' && !IsSpace(c)
  }

  /** `[^@\s]+`: a non-empty run without `@` and without whitespace. */
  predicate IsRun(s: string) {
    |s| > 0 && forall k :: 0 <= k < |s| ==> RunChar(s[k])
  }

  /** The email pattern body read literally: a run, `@` at `i`, a run, `.` at
      `j`, a run, and nothing else. */
  ghost predicate EmailPattern(s: string) {
    exists i, j :: 0 <= i < j < |s| && s[i] == '@' && s[j] == '.' &&
      IsRun(s[..i]) && IsRun(s[i + 1..j]) && IsRun(s[j + 1..])
  }

  /** The part after the `@`, `[^@\s]+\.[^@\s]+`: at least three characters of
      the class (a `.` is one of them) with a `.` that is neither first nor
      last. */
  predicate IsDomain(d: string) {
    && |d| >= 3
    && (forall k :: 0 <= k < |d| ==> RunChar(d[k]))
    && '.' in d[1..|d| - 1]
  }

  /** Decides the email pattern body over the whole of `s`: the text before
      the first `@` is a run and the text after it is a domain. */
  predicate IsEmailText(s: string) {
    var at := IndexOf(s, '@');
    at < |s| && IsRun(s[..at]) && IsDomain(s[at + 1..])
  }

  /** `re.match(r"^[^@\s]+@[^@\s]+\.[^@\s]+$", s)` succeeds. */
  predicate EmailMatches(s: string) {
    IsEmailText(WithoutFinalNewline(s))
  }

  /** The check applied to the form's email field (line 609). */
  predicate EmailAccepted(email: Option<string>) {
    EmailMatches(OrEmpty(email))
  }

  /** Whatever the matcher accepts, the pattern reads. */
  lemma EmailTextToPattern(s: string)
    requires IsEmailText(s)
    ensures EmailPattern(s)
  {
    var at := IndexOf(s, '@');
    var d := s[at + 1..];
    var q :| 0 <= q < |d| - 2 && d[1..|d| - 1][q] == '.';
    var j := at + 2 + q;
    assert s[j] == '.';
    assert s[at + 1..j] == d[..q + 1];
    assert s[j + 1..] == d[q + 2..];
    assert IsRun(s[at + 1..j]);
    assert IsRun(s[j + 1..]);
  }

  /** Whatever the pattern reads, with `@` at `i` and `.` at `j`, the matcher
      accepts. */
  lemma EmailPatternAt(s: string, i: int, j: int)
    requires 0 <= i < j < |s| && s[i] == '@' && s[j] == '.'
    requires IsRun(s[..i]) && IsRun(s[i + 1..j]) && IsRun(s[j + 1..])
    ensures IsEmailText(s)
  {
    assert forall k :: 0 <= k < i ==> s[..i][k] == s[k];
    assert IndexOf(s, '@') == i;
    var d := s[i + 1..];
    forall k | 0 <= k < |d| ensures RunChar(d[k]) {
      if k < j - i - 1 {
        assert d[k] == s[i + 1..j][k];
      } else if k > j - i - 1 {
        assert d[k] == s[j + 1..][k - (j - i)];
      }
    }
    assert d[1..|d| - 1][j - i - 2] == '.';
    assert IsDomain(d);
  }

  /** The decision procedure and the literal reading of the pattern agree on
      every text, in both directions. */
  lemma EmailTextIffPattern(s: string)
    ensures IsEmailText(s) <==> EmailPattern(s)
  {
    if IsEmailText(s) {
      EmailTextToPattern(s);
    }
    if EmailPattern(s) {
      var i, j :| 0 <= i < j < |s| && s[i] == '@' && s[j] == '.' &&
        IsRun(s[..i]) && IsRun(s[i + 1..j]) && IsRun(s[j + 1..]);
      EmailPatternAt(s, i, j);
    }
  }

  /** An accepted email body holds exactly one `@` and no whitespace. */
  lemma EmailOneAtNoSpace(s: string)
    requires IsEmailText(s)
    ensures Occurrences(s, '@') == 1
    ensures NoSpace(s)
  {
    EmailOneAt(s);
    EmailNoSpace(s);
  }

  lemma EmailOneAt(s: string)
    requires IsEmailText(s)
    ensures Occurrences(s, '@') == 1
  {
    var at := IndexOf(s, '@');
    var local, d := s[..at], s[at + 1..];
    assert s == local + [s[at]] + d;
    assert forall k :: 0 <= k < |d| ==> RunChar(d[k]);
    OccurrencesAbsent(local, '@');
    OccurrencesAbsent(d, '@');
    OccurrencesAppend(local, [s[at]], '@');
    OccurrencesAppend(local + [s[at]], d, '@');
  }

  lemma EmailNoSpace(s: string)
    requires IsEmailText(s)
    ensures NoSpace(s)
  {
    var at := IndexOf(s, '@');
    var local, d := s[..at], s[at + 1..];
    assert !IsSpace('@');
    forall k | 0 <= k < |s| ensures !IsSpace(s[k]) {
      if k < at {
        assert s[k] == local[k] && RunChar(local[k]);
      } else if k > at {
        assert s[k] == d[k - at - 1] && RunChar(d[k - at - 1]);
      }
    }
  }

  /** Any local run, `@`, run, `.`, run is accepted; the runs may themselves
      hold dots, so a domain with several dots is accepted. */
  lemma EmailFromParts(local: string, host: string, tld: string)
    requires IsRun(local) && IsRun(host) && IsRun(tld)
    ensures EmailMatches(local + "@" + host + "." + tld)
  {
    var s := local + "@" + host + "." + tld;
    var i, j := |local|, |local| + 1 + |host|;
    assert s[..i] == local && s[i + 1..j] == host && s[j + 1..] == tld;
    assert s[i] == '@' && s[j] == '.';
    assert EmailPattern(s);
    EmailTextIffPattern(s);
    assert s[|s| - 1] == tld[|tld| - 1];
  }

  /** A text that does not end in a newline is matched on its own. */
  lemma NoFinalNewline(s: string)
    requires |s| > 0 && s[|s| - 1] != '\n'
    ensures WithoutFinalNewline(s) == s
  {
  }

  /** The form's placeholder is accepted. */
  lemma EmailAcceptsPlaceholder()
    ensures EmailMatches("name@gmail.com")
  {
    AcceptAt("name@gmail.com", 4, 10);
  }

  /** A domain with several dots is accepted. */
  lemma EmailAcceptsDottedDomain()
    ensures EmailMatches("a@b.c.d")
  {
    AcceptAt("a@b.c.d", 1, 3);
  }

  /** A text without `@` is rejected. */
  lemma EmailRejectsNoAt()
    ensures !EmailMatches("bad-email")
  {
    NoAt("bad-email");
  }

  /** Nothing after the `.` is rejected. */
  lemma EmailRejectsEmptyTld()
    ensures !EmailMatches("a@b.")
  {
    RejectAt("a@b.", 1);
  }

  /** Nothing between the `@` and the `.` is rejected. */
  lemma EmailRejectsEmptyHost()
    ensures !EmailMatches("a@.b")
  {
    RejectAt("a@.b", 1);
  }

  /** A second `@` is rejected. */
  lemma EmailRejectsTwoAts()
    ensures !EmailMatches("a@@b.c")
  {
    assert "a@@b.c"[1 + 1..][0] == '@';
    RejectAt("a@@b.c", 1);
  }

  /** Whitespace is rejected. */
  lemma EmailRejectsSpace()
    ensures !EmailMatches("a b@c.d")
  {
    assert "a b@c.d"[..3][1] == ' ';
    assert IsSpace(' ');
    RejectAt("a b@c.d", 3);
  }

  /** A missing and an empty field are rejected. */
  lemma EmailRejectsMissing()
    ensures !EmailAccepted(None) && !EmailAccepted(Some(""))
  {
  }

  lemma AcceptAt(s: string, i: int, j: int)
    requires 0 <= i < j < |s| && s[i] == '@' && s[j] == '.' && s[|s| - 1] != '\n'
    requires IsRun(s[..i]) && IsRun(s[i + 1..j]) && IsRun(s[j + 1..])
    ensures EmailMatches(s)
  {
    EmailPatternAt(s, i, j);
    NoFinalNewline(s);
  }

  lemma NoAt(s: string)
    requires |s| > 0 && s[|s| - 1] != '\n'
    requires forall k :: 0 <= k < |s| ==> s[k] != '@'
    ensures !EmailMatches(s)
  {
    NoFinalNewline(s);
  }

  lemma RejectAt(s: string, at: nat)
    requires |s| > 0 && s[|s| - 1] != '\n'
    requires at < |s| && s[at] == '@' && forall k :: 0 <= k < at ==> s[k] != '@'
    requires !IsRun(s[..at]) || !IsDomain(s[at + 1..])
    ensures !EmailMatches(s)
  {
    NoFinalNewline(s);
    RejectText(s, at);
  }

  lemma RejectText(s: string, at: nat)
    requires at < |s| && s[at] == '@' && forall k :: 0 <= k < at ==> s[k] != '@'
    requires !IsRun(s[..at]) || !IsDomain(s[at + 1..])
    ensures !IsEmailText(s)
  {
    assert IndexOf(s, '@') == at;
  }

  /** Python's `$` lets one final newline through: the text below is not an
      email body, yet the check accepts it. */
  lemma EmailFinalNewline()
    ensures EmailMatches("a@b.c\n") && !IsEmailText("a@b.c\n")
  {
    assert WithoutFinalNewline("a@b.c\n") == "a@b.c";
    EmailPatternAt("a@b.c", 1, 3);
    assert "a@b.c\n"[1 + 1..][3] == '\n';
    RejectText("a@b.c\n", 1);
  }

  /** What the form stores for an accepted email, `email.strip()`, is itself
      an email body: whitespace can surround an accepted email only as the one
      final newline, and stripping removes exactly that. */
  lemma StrippedEmail(s: string)
    requires EmailMatches(s)
    ensures Strip(s) == WithoutFinalNewline(s)
    ensures IsEmailText(Strip(s)) && NoSpace(Strip(s))
    ensures EmailMatches(Strip(s))
  {
    var t := WithoutFinalNewline(s);
    EmailOneAtNoSpace(t);
    assert NoSpace(t) && |t| > 0;
    if t == s {
      StripAt(s, 0, |s|);
    } else {
      assert IsSpace('\n');
      assert s[..|t|] == t;
      StripAt(s, 0, |t|);
    }
    assert t[|t| - 1] != '\n' by { assert IsSpace('\n'); }
    NoFinalNewline(t);
  }

  /** Python's `$` read literally: the pattern body covers all of `s`, or all
      of `s` but one final newline. Both readings are kept, and the first never
      applies to a text that ends in a newline, since the body holds no
      whitespace. */
  lemma EmailDollar(s: string)
    ensures EmailMatches(s) <==>
      EmailPattern(s) || (|s| > 0 && s[|s| - 1] == '\n' && EmailPattern(s[..|s| - 1]))
  {
    EmailTextIffPattern(s);
    EmailTextIffPattern(WithoutFinalNewline(s));
    if |s| > 0 && s[|s| - 1] == '\n' {
      assert s[..|s| - 1] == WithoutFinalNewline(s);
      assert IsSpace(s[|s| - 1]);
      if IsEmailText(s) {
        EmailNoSpace(s);
      }
    }
  }

  // ---------------------------------------------------------------- phone

  /** One character of the class `[0-9 ()-]`. */
  predicate PhoneChar(c: char) {
    ('0' <= c <= '9') || c == ' ' || c == '(' || c == ')' || c == '-'
  }

  /** `[0-9 ()-]{7,20}`. */
  predicate PhoneRun(s: string) {
    7 <= |s| <= 20 && forall k :: 0 <= k < |s| ==> PhoneChar(s[k])
  }

  /** The phone pattern body read literally: `\+?` either matches nothing or
      matches one leading `+`, and a run of the class follows. */
  ghost predicate PhonePattern(s: string) {
    PhoneRun(s) || (|s| > 0 && s[0] == '+' && PhoneRun(s[1..]))
  }

  /** Decides the phone pattern body: takes a leading `+` when there is one,
      as the greedy `\+?` does, then checks the run. */
  predicate IsPhoneText(s: string) {
    PhoneRun(if |s| > 0 && s[0] == '+' then s[1..] else s)
  }

  /** `re.match(r"^\+?[0-9 ()-]{7,20}$", s)` succeeds. */
  predicate PhoneMatches(s: string) {
    IsPhoneText(WithoutFinalNewline(s))
  }

  /** The check applied to the form's phone field (line 610). */
  predicate PhoneAccepted(phone: Option<string>) {
    PhoneMatches(OrEmpty(phone))
  }

  /** Taking the `+` greedily loses no match, because `+` is not in the class
      that follows. */
  lemma PhoneTextIffPattern(s: string)
    ensures IsPhoneText(s) <==> PhonePattern(s)
  {
    if |s| > 0 && s[0] == '+' {
      assert !PhoneChar(s[0]);
    }
  }

  /** Python's `$` read literally for the phone pattern, as for the email:
      the body covers all of `s`, or all of `s` but one final newline, which
      the body cannot hold itself. */
  lemma PhoneDollar(s: string)
    ensures PhoneMatches(s) <==>
      PhonePattern(s) || (|s| > 0 && s[|s| - 1] == '\n' && PhonePattern(s[..|s| - 1]))
  {
    PhoneTextIffPattern(s);
    PhoneTextIffPattern(WithoutFinalNewline(s));
    if |s| > 0 && s[|s| - 1] == '\n' {
      assert s[..|s| - 1] == WithoutFinalNewline(s);
      assert !PhoneChar(s[|s| - 1]);
      if IsPhoneText(s) {
        PhoneShape(s);
      }
    }
  }

  /** The shape of an accepted phone body, in both directions: every
      character is of the class except a `+` in front, and without that `+`
      there are 7 to 20 of them. */
  lemma PhoneShape(s: string)
    ensures IsPhoneText(s) <==>
      && (forall k :: 0 <= k < |s| ==> PhoneChar(s[k]) || (k == 0 && s[k] == '+'))
      && 7 <= |s| - (if |s| > 0 && s[0] == '+' then 1 else 0) <= 20
  {
    if |s| > 0 && s[0] == '+' {
      assert forall k :: 0 < k < |s| ==> s[k] == s[1..][k - 1];
    }
  }

  /** A `+` anywhere but first is rejected. */
  lemma PhoneRejectsInnerPlus(s: string, k: int)
    requires 0 < k < |WithoutFinalNewline(s)| && WithoutFinalNewline(s)[k] == '+'
    ensures !PhoneMatches(s)
  {
    PhoneShape(WithoutFinalNewline(s));
  }

  /** Fewer than 7 or more than 21 characters (20 and a `+`), not counting a
      final newline, are rejected. */
  lemma PhoneRejectsLength(s: string)
    requires |WithoutFinalNewline(s)| < 7 || |WithoutFinalNewline(s)| > 21
    ensures !PhoneMatches(s)
  {
    PhoneShape(WithoutFinalNewline(s));
  }

  /** A missing and an empty field are rejected. */
  lemma PhoneRejectsMissing()
    ensures !PhoneAccepted(None) && !PhoneAccepted(Some(""))
  {
  }

  /** A run of the class with no `+` in front and no final newline is
      accepted; so is one with a `+` in front. */
  lemma PhoneAcceptAt(s: string)
    requires |s| > 1 && s[|s| - 1] != '\n'
    requires (s[0] != '+' && PhoneRun(s)) || (s[0] == '+' && PhoneRun(s[1..]))
    ensures PhoneMatches(s)
  {
    NoFinalNewline(s);
  }

  /** A text that does not end in a newline and is no run of the class, with
      or without a leading `+`, is rejected. */
  lemma PhoneRejectAt(s: string)
    requires |s| > 0 && s[|s| - 1] != '\n'
    requires s[0] != '+' ==> !PhoneRun(s)
    requires s[0] == '+' ==> !PhoneRun(s[1..])
    ensures !PhoneMatches(s)
  {
    NoFinalNewline(s);
  }

  /** The phone number shown on the page, and the form's placeholder. */
  lemma PhoneAcceptsPagePhone()
    ensures PhoneMatches("+1 (469) 347 5994")
  {
    assert "+1 (469) 347 5994"[1..] == "1 (469) 347 5994";
    PhoneAcceptAt("+1 (469) 347 5994");
  }

  lemma PhoneAcceptsPlaceholder()
    ensures PhoneMatches("+1 469 347 5994")
  {
    assert "+1 469 347 5994"[1..] == "1 469 347 5994";
    PhoneAcceptAt("+1 469 347 5994");
  }

  lemma PhoneAcceptsDashed()
    ensures PhoneMatches("123-456-7890")
  {
    PhoneAcceptAt("123-456-7890");
  }

  /** Letters are rejected. */
  lemma PhoneRejectsLetters()
    ensures !PhoneMatches("abc")
  {
    PhoneRejectAt("abc");
  }

  /** Six digits are too few and twenty-one too many. */
  lemma PhoneRejectsShortAndLong()
    ensures !PhoneMatches("123456")
    ensures !PhoneMatches("123456789012345678901")
  {
    PhoneRejectAt("123456");
    PhoneRejectAt("123456789012345678901");
  }

  /** A second `+` is rejected. */
  lemma PhoneRejectsTwoPlus()
    ensures !PhoneMatches("++1234567")
  {
    assert "++1234567"[1..][0] == '+';
    PhoneRejectAt("++1234567");
  }

  /** The phone is stored as `phone.strip()`, and stripping can turn an
      accepted phone into one the check rejects: the stored phone is not
      promised to pass the check again. */
  lemma StrippedPhoneMayFail()
    ensures PhoneMatches("   1234 ") && !PhoneMatches(Strip("   1234 "))
  {
    PhoneAcceptAt("   1234 ");
    StripPadded();
    PhoneRejectAt("1234");
  }

  lemma SpacesOnly()
    ensures AllSpace("   ") && AllSpace(" ")
  {
    assert IsSpace(' ');
  }

  lemma StripPadded()
    ensures Strip("   1234 ") == "1234"
  {
    var s := "   1234 ";
    assert s[..3] == "   " && s[7..] == " " && s[3..7] == "1234";
    SpacesOnly();
    StripAt(s, 3, 7);
  }

  /** What is stored for an accepted phone holds no newline, so it fits on one
      line of the notification body. */
  lemma StrippedPhoneOneLine(s: string)
    requires PhoneMatches(s)
    ensures forall k :: 0 <= k < |Strip(s)| ==> Strip(s)[k] != '\n'
  {
    PhoneNewlineOnlyLast(s);
    StripNewlineOnlyLast(s);
  }

  /** An accepted phone can hold a newline only as its last character. */
  lemma PhoneNewlineOnlyLast(s: string)
    requires PhoneMatches(s)
    ensures forall k :: 0 <= k < |s| - 1 ==> s[k] != '\n'
  {
    var t := WithoutFinalNewline(s);
    PhoneShape(t);
    assert forall k :: 0 <= k < |t| ==> PhoneChar(t[k]) || (k == 0 && t[k] == '+');
    assert forall k :: 0 <= k < |t| ==> t[k] != '\n';
    assert forall k :: 0 <= k < |t| ==> s[k] == t[k];
  }

  /** The same for the stored email. */
  lemma StrippedEmailOneLine(s: string)
    requires EmailMatches(s)
    ensures forall k :: 0 <= k < |Strip(s)| ==> Strip(s)[k] != '\n'
  {
    StrippedEmail(s);
    assert IsSpace('\n');
  }
}
