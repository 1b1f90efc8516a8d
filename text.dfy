/**
 * Character classes and the string normalisations the query engine relies on:
 * Python's `str.strip()`, `str.title()` and `str.lower()`, restricted as stated
 * in README.md (letters are ASCII letters; whitespace is Python's whitespace).
 */
module Text {

  /** Whitespace as `str.isspace()` and the regular-expression class `\s` see it. */
  predicate IsSpace(c: char) {
    || ('\t' <= c <= '\r')
    || ('\U{1c}' <= c <= ' ')
    || c == '\U{85}' || c == '\U{a0}' || c == '\U{1680}'
    || ('\U{2000}' <= c <= '\U{200a}')
    || c == '\U{2028}' || c == '\U{2029}' || c == '\U{202f}' || c == '\U{205f}' || c == '\U{3000}'
  }

  predicate IsLetter(c: char) {
    ('A' <= c <= 'Z') || ('a' <= c <= 'z')
  }

  /** The character class `[A-Za-z_]` of the fact format's identifiers. */
  predicate IsIdentChar(c: char) {
    IsLetter(c) || c == '_'
  }

  function ToUpper(c: char): (u: char)
    ensures IsLetter(u) == IsLetter(c)
    ensures !('a' <= u <= 'z')
  {
    if 'a' <= c <= 'z' then (c as int - 32) as char else c
  }

  function ToLower(c: char): (l: char)
    ensures IsLetter(l) == IsLetter(c)
    ensures !('A' <= l <= 'Z')
  {
    if 'A' <= c <= 'Z' then (c as int + 32) as char else c
  }

  /** Changing letter case twice is changing it once, and never touches whitespace. */
  lemma CaseOf(c: char)
    ensures ToLower(ToUpper(c)) == ToLower(c) && ToLower(ToLower(c)) == ToLower(c)
    ensures ToUpper(ToLower(c)) == ToUpper(c) && ToUpper(ToUpper(c)) == ToUpper(c)
    ensures IsSpace(ToUpper(c)) == IsSpace(c) && IsSpace(ToLower(c)) == IsSpace(c)
  {
    if 'a' <= c <= 'z' {
      assert 'A' <= ToUpper(c) <= 'Z';
    } else if 'A' <= c <= 'Z' {
      assert 'a' <= ToLower(c) <= 'z';
    }
  }

  predicate AllSpace(s: string) {
    forall i :: 0 <= i < |s| ==> IsSpace(s[i])
  }

  /** Number of whitespace characters at the front of `s`. */
  function LeadingSpace(s: string): (n: nat)
    ensures n <= |s| && AllSpace(s[..n])
    ensures n < |s| ==> !IsSpace(s[n])
  {
    if |s| == 0 || !IsSpace(s[0]) then 0 else 1 + LeadingSpace(s[1..])
  }

  /** Number of whitespace characters at the back of `s`. */
  function TrailingSpace(s: string): (n: nat)
    ensures n <= |s| && AllSpace(s[|s| - n..])
    ensures n < |s| ==> !IsSpace(s[|s| - n - 1])
  {
    if |s| == 0 || !IsSpace(s[|s| - 1]) then 0
    else
      var m := TrailingSpace(s[..|s| - 1]);
      SpaceSuffix(s, m);
      1 + m
  }

  lemma SpaceSuffix(s: string, m: nat)
    requires m < |s| && IsSpace(s[|s| - 1]) && AllSpace(s[..|s| - 1][|s| - 1 - m..])
    ensures AllSpace(s[|s| - (m + 1)..])
  {
    var t := s[..|s| - 1][|s| - 1 - m..];
    var u := s[|s| - (m + 1)..];
    forall i | 0 <= i < |u|
      ensures IsSpace(u[i])
    {
      if i < m {
        assert u[i] == t[i];
      }
    }
  }

  /** `str.strip()`: `s` without its leading and trailing whitespace. */
  function Strip(s: string): (r: string)
    ensures |r| <= |s|
    ensures |r| == 0 ==> AllSpace(s)
    ensures |r| > 0 ==> !IsSpace(r[0]) && !IsSpace(r[|r| - 1])
    ensures exists i :: 0 <= i <= |s| - |r| && StripsTo(s, i, r)
  {
    var a := LeadingSpace(s);
    if a == |s| then
      assert StripsTo(s, |s|, []);
      []
    else
      var b := TrailingSpace(s);
      assert s[a..|s| - b][0] == s[a];
      assert StripsTo(s, a, s[a..|s| - b]);
      s[a..|s| - b]
  }

  /** `r` sits at offset `i` of `s` with only whitespace before and after it. */
  predicate StripsTo(s: string, i: nat, r: string)
    requires i <= |s| - |r|
  {
    s[i..i + |r|] == r && AllSpace(s[..i]) && AllSpace(s[i + |r|..])
  }

  /** `str.lower()` on ASCII letters. */
  function Lower(s: string): (r: string)
    ensures |r| == |s|
    ensures forall i :: 0 <= i < |s| ==> r[i] == ToLower(s[i])
  {
    if |s| == 0 then [] else [ToLower(s[0])] + Lower(s[1..])
  }

  /**
   * `str.title()`: scans left to right; a character that follows a letter is
   * lower-cased, every other character is upper-cased.  `afterLetter` says
   * whether the character before `s` was a letter.
   */
  function TitleFrom(s: string, afterLetter: bool): (r: string)
    ensures |r| == |s|
  {
    if |s| == 0 then []
    else [if afterLetter then ToLower(s[0]) else ToUpper(s[0])] + TitleFrom(s[1..], IsLetter(s[0]))
  }

  /** The first letter of each word is upper case and every other letter is lower case. */
  function Title(s: string): (r: string)
    ensures |r| == |s|
    ensures forall i {:trigger r[i]} :: 0 <= i < |s| ==> r[i] == if i > 0 && IsLetter(s[i - 1]) then ToLower(s[i]) else ToUpper(s[i])
  {
    var r := TitleFrom(s, false);
    assert forall i :: 0 <= i < |s| ==> r[i] == if i > 0 && IsLetter(s[i - 1]) then ToLower(s[i]) else ToUpper(s[i]) by {
      forall i | 0 <= i < |s|
        ensures r[i] == if i > 0 && IsLetter(s[i - 1]) then ToLower(s[i]) else ToUpper(s[i])
      {
        TitleFromAt(s, false, i);
      }
    }
    r
  }

  /** Title-casing changes nothing but letter case. */
  lemma TitleLower(s: string)
    ensures Lower(Title(s)) == Lower(s)
  {
    var t := Title(s);
    forall i | 0 <= i < |s|
      ensures Lower(t)[i] == Lower(s)[i]
    {
      CaseOf(s[i]);
    }
  }

  /** `TitleFrom` at one position: lower case after a letter, upper case otherwise. */
  lemma {:induction false} TitleFromAt(s: string, afterLetter: bool, i: nat)
    requires i < |s|
    ensures TitleFrom(s, afterLetter)[i] ==
      if (if i == 0 then afterLetter else IsLetter(s[i - 1])) then ToLower(s[i]) else ToUpper(s[i])
  {
    if i > 0 {
      TitleFromAt(s[1..], IsLetter(s[0]), i - 1);
    }
  }

  /** Title-casing a title-cased string changes nothing. */
  lemma TitleIdempotent(s: string)
    ensures Title(Title(s)) == Title(s)
  {
    var t := Title(s);
    forall i | 0 <= i < |s|
      ensures Title(t)[i] == t[i]
    {
      CaseOf(s[i]);
      if i > 0 {
        assert IsLetter(t[i - 1]) == IsLetter(s[i - 1]);
      }
    }
  }

  /** Title-casing ignores the letter case of its input. */
  lemma TitleIgnoresCase(s: string)
    ensures Title(Lower(s)) == Title(s)
  {
    var l := Lower(s);
    forall i | 0 <= i < |s|
      ensures Title(l)[i] == Title(s)[i]
    {
      CaseOf(s[i]);
      if i > 0 {
        assert IsLetter(l[i - 1]) == IsLetter(s[i - 1]);
      }
    }
  }

  /** Stripping a stripped string changes nothing. */
  lemma StripIdempotent(s: string)
    ensures Strip(Strip(s)) == Strip(s)
  {
    var r := Strip(s);
    if |r| > 0 {
      assert LeadingSpace(r) == 0;
      assert TrailingSpace(r) == 0;
    }
  }

  /** Title-casing keeps every whitespace character, and makes none. */
  lemma TitleKeepsSpace(s: string, i: nat)
    requires i < |s|
    ensures IsSpace(Title(s)[i]) <==> IsSpace(s[i])
    ensures IsSpace(s[i]) ==> Title(s)[i] == s[i]
  {
    CaseOf(s[i]);
  }

  /** A string with no whitespace at either end is its own strip. */
  lemma StripUnpadded(s: string)
    requires |s| > 0 ==> !IsSpace(s[0]) && !IsSpace(s[|s| - 1])
    ensures Strip(s) == s
  {
    if |s| > 0 {
      assert LeadingSpace(s) == 0;
      assert TrailingSpace(s) == 0;
    }
  }
}
