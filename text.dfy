/**
 * Whitespace and `str.strip()` as Python defines them for `str` values.
 *
 * The same character class serves three places of the contact pipeline:
 * `\s` inside the two validation patterns, and the `.strip()` applied to
 * every field before it is stored and mailed.
 */
module Text {

  /** Python's `str.isspace()`: the characters `\s` matches in a `str` pattern
      and the characters `str.strip()` removes (bidirectional class WS, B or S,
      or general category Zs). */
  predicate IsSpace(c: char) {
    || ('\t' <= c <= '\r')                  // U+0009 .. U+000D
    || ('\U{1C}' <= c <= ' ')               // U+001C .. U+001F, U+0020
    || c == '\U{85}' || c == '\U{A0}' || c == '\U{1680}'
    || ('\U{2000}' <= c <= '\U{200A}')
    || c == '\U{2028}' || c == '\U{2029}' || c == '\U{202F}'
    || c == '\U{205F}' || c == '\U{3000}'
  }

  predicate AllSpace(s: string) {
    forall k :: 0 <= k < |s| ==> IsSpace(s[k])
  }

  predicate NoSpace(s: string) {
    forall k :: 0 <= k < |s| ==> !IsSpace(s[k])
  }

  /** Index of the first `c` in `s`, or `|s|` when there is none. */
  function IndexOf(s: string, c: char): (i: nat)
    ensures i <= |s|
    ensures forall k :: 0 <= k < i ==> s[k] != c
    ensures i < |s| ==> s[i] == c
    decreases |s|
  {
    if |s| == 0 then 0 else if s[0] == c then 0 else 1 + IndexOf(s[1..], c)
  }

  /** Number of whitespace characters that open `s`. */
  function LeadingSpaces(s: string): (n: nat)
    ensures n <= |s|
    ensures forall k :: 0 <= k < n ==> IsSpace(s[k])
    ensures n < |s| ==> !IsSpace(s[n])
    decreases |s|
  {
    if |s| == 0 || !IsSpace(s[0]) then 0 else 1 + LeadingSpaces(s[1..])
  }

  /** Number of whitespace characters that close `s`. */
  function TrailingSpaces(s: string): (n: nat)
    ensures n <= |s|
    ensures forall k :: |s| - n <= k < |s| ==> IsSpace(s[k])
    ensures n < |s| ==> !IsSpace(s[|s| - 1 - n])
    decreases |s|
  {
    if |s| == 0 || !IsSpace(s[|s| - 1]) then 0 else 1 + TrailingSpaces(s[..|s| - 1])
  }

  /** `s.strip()`: the infix of `s` left after removing its leading and its
      trailing whitespace. */
  function Strip(s: string): (r: string)
    ensures |r| <= |s|
    ensures LeadingSpaces(s) + |r| <= |s| && r == s[LeadingSpaces(s)..LeadingSpaces(s) + |r|]
    ensures AllSpace(s[..LeadingSpaces(s)]) && AllSpace(s[LeadingSpaces(s) + |r|..])
    ensures r == [] || (!IsSpace(r[0]) && !IsSpace(r[|r| - 1]))
  {
    var t := s[LeadingSpaces(s)..];
    t[..|t| - TrailingSpaces(t)]
  }

  /** The reference characterisation of `strip`: whatever whitespace `a` and
      `b` surround a text `r` that neither starts nor ends with whitespace,
      stripping gives back exactly `r`. */
  lemma StripUnique(a: string, r: string, b: string)
    requires AllSpace(a) && AllSpace(b)
    requires r == [] || (!IsSpace(r[0]) && !IsSpace(r[|r| - 1]))
    ensures Strip(a + r + b) == r
  {
    var s := a + r + b;
    var n := LeadingSpaces(s);
    if r == [] {
      assert s == a + b;
      assert AllSpace(s);
      assert n == |s|;
    } else {
      assert s[|a|] == r[0];
      assert n == |a|;
      var t := s[n..];
      assert t == r + b;
      var m := TrailingSpaces(t);
      assert t[|t| - 1 - |b|] == r[|r| - 1];
      assert m == |b|;
      assert t[..|t| - m] == r;
    }
  }

  /** `strip` located by position: whitespace before `i` and from `j` on,
      and a non-whitespace character at each end of `s[i..j]`. */
  lemma StripAt(s: string, i: nat, j: nat)
    requires i <= j <= |s|
    requires AllSpace(s[..i]) && AllSpace(s[j..])
    requires i == j || (!IsSpace(s[i]) && !IsSpace(s[j - 1]))
    ensures Strip(s) == s[i..j]
  {
    assert s == s[..i] + s[i..j] + s[j..];
    StripUnique(s[..i], s[i..j], s[j..]);
  }

  /** A newline can end a text only as whitespace, so when it occurs nowhere
      but last, the stripped text holds none. */
  lemma StripNewlineOnlyLast(s: string)
    requires forall k :: 0 <= k < |s| - 1 ==> s[k] != '\n'
    ensures forall k :: 0 <= k < |Strip(s)| ==> Strip(s)[k] != '\n'
  {
    var r := Strip(s);
    var n := LeadingSpaces(s);
    forall k | 0 <= k < |r| ensures r[k] != '\n' {
      if k < |r| - 1 {
        assert r[k] == s[n + k];
      } else {
        assert IsSpace('\n');
      }
    }
  }

  /** A text with no whitespace at all is left as it is. */
  lemma StripNoSpace(s: string)
    requires NoSpace(s)
    ensures Strip(s) == s
  {
    StripUnique([], s, []);
    assert [] + s + [] == s;
  }

  /** Stripping twice is stripping once. */
  lemma StripIdempotent(s: string)
    ensures Strip(Strip(s)) == Strip(s)
  {
    var r := Strip(s);
    StripUnique([], r, []);
    assert [] + r + [] == r;
  }
}
