/** UTF-8 as the JSON encoder sees it. A Go string is any sequence of bytes; the encoder
    writes U+FFFD for every byte that does not belong to a well-formed sequence (section 4 of
    RFC 3629). Each char stands for one byte. */
module Utf8 {

  /** U+FFFD. */
  const REPLACEMENT := "\U{EF}\U{BF}\U{BD}"

  predicate Continues(c: char) {
    '\U{80}' <= c <= '\U{BF}'
  }

  /** The first two bytes of a three-byte sequence: no overlong form and no surrogate. */
  predicate OpensThree(a: char, b: char) {
    || (a == '\U{E0}' && '\U{A0}' <= b <= '\U{BF}')
    || (a == '\U{ED}' && '\U{80}' <= b <= '\U{9F}')
    || ('\U{E1}' <= a <= '\U{EF}' && a != '\U{ED}' && Continues(b))
  }

  /** The first two bytes of a four-byte sequence: no overlong form and nothing above
      U+10FFFF. */
  predicate OpensFour(a: char, b: char) {
    || (a == '\U{F0}' && '\U{90}' <= b <= '\U{BF}')
    || (a == '\U{F4}' && '\U{80}' <= b <= '\U{8F}')
    || ('\U{F1}' <= a <= '\U{F3}' && Continues(b))
  }

  /** The length of the well-formed sequence s starts with, 0 when there is none. */
  function RuneLength(s: string): (n: nat)
    ensures n <= |s|
  {
    if s == "" then 0
    else if s[0] < '\U{80}' then 1
    else if |s| >= 2 && '\U{C2}' <= s[0] <= '\U{DF}' && Continues(s[1]) then 2
    else if |s| >= 3 && OpensThree(s[0], s[1]) && Continues(s[2]) then 3
    else if |s| >= 4 && OpensFour(s[0], s[1]) && Continues(s[2]) && Continues(s[3]) then 4
    else 0
  }

  predicate ValidUtf8(s: string)
    decreases |s|
  {
    s == "" || (RuneLength(s) > 0 && ValidUtf8(s[RuneLength(s)..]))
  }

  /** What the encoder makes of s. */
  function Sanitized(s: string): string
    decreases |s|
  {
    if s == "" then ""
    else if RuneLength(s) == 0 then REPLACEMENT + Sanitized(s[1..])
    else s[..RuneLength(s)] + Sanitized(s[RuneLength(s)..])
  }

  /** A well-formed sequence is recognised whatever follows it. */
  lemma RuneStandsAlone(s: string, t: string)
    requires RuneLength(s) > 0
    ensures RuneLength(s[..RuneLength(s)] + t) == RuneLength(s)
  {
    var n := RuneLength(s);
    assert forall i | 0 <= i < n :: (s[..n] + t)[i] == s[i];
  }

  lemma {:induction false} SanitizedIsValid(s: string)
    ensures ValidUtf8(Sanitized(s))
    decreases |s|
  {
    if s != "" {
      var n := RuneLength(s);
      var t := Sanitized(if n == 0 then s[1..] else s[n..]);
      if n == 0 {
        SanitizedIsValid(s[1..]);
        assert RuneLength(REPLACEMENT + t) == 3;
        assert (REPLACEMENT + t)[3..] == t;
      } else {
        SanitizedIsValid(s[n..]);
        RuneStandsAlone(s, t);
        assert (s[..n] + t)[n..] == t;
      }
    }
  }

  /** Exactly the valid strings are encoded unchanged. */
  lemma {:induction false} SanitizedKeepsExactly(s: string)
    ensures Sanitized(s) == s <==> ValidUtf8(s)
    decreases |s|
  {
    SanitizedIsValid(s);
    if s != "" && ValidUtf8(s) {
      SanitizedKeepsExactly(s[RuneLength(s)..]);
    }
  }

  predicate IsAscii(s: string) {
    forall i | 0 <= i < |s| :: s[i] < '\U{80}'
  }

  lemma {:induction false} AsciiIsValid(s: string)
    requires IsAscii(s)
    ensures ValidUtf8(s)
    decreases |s|
  {
    if s != "" {
      AsciiIsValid(s[1..]);
    }
  }

  lemma InvalidIsNotAscii(s: string)
    requires s != "" && RuneLength(s) == 0
    ensures !IsAscii(Sanitized(s))
  {
    assert Sanitized(s)[0] == REPLACEMENT[0];
  }

  lemma ValidStartIsKept(s: string)
    requires RuneLength(s) > 0
    ensures Sanitized(s) == s[..RuneLength(s)] + Sanitized(s[RuneLength(s)..])
  {
  }

  lemma {:induction false} AsciiComesFromItself(s: string)
    requires IsAscii(Sanitized(s))
    ensures Sanitized(s) == s
    decreases |s|
  {
    hide RuneLength, Sanitized;
    var n := RuneLength(s);
    if s == "" {
      NothingToReplace();
    } else if n == 0 {
      InvalidIsNotAscii(s);
    } else {
      ValidStartIsKept(s);
      var t := Sanitized(s[n..]);
      assert forall i | 0 <= i < |t| :: t[i] == (s[..n] + t)[n + i];
      AsciiComesFromItself(s[n..]);
    }
  }

  lemma NothingToReplace()
    ensures Sanitized("") == ""
  {
  }

  /** Replacing bytes neither makes nor breaks an ASCII word. */
  lemma AsciiWordsAreKept(s: string, word: string)
    requires IsAscii(word)
    ensures Sanitized(s) == word <==> s == word
  {
    AsciiIsValid(word);
    SanitizedKeepsExactly(word);
    if Sanitized(s) == word {
      AsciiComesFromItself(s);
    }
  }
}
