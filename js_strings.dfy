/**
 * The three string operations the city filter relies on: `trim`,
 * `toLowerCase` and `includes`. `trim` removes exactly the ECMAScript
 * WhiteSpace and LineTerminator characters; `toLowerCase` is modelled for
 * ASCII, the Latin-1 capitals and the Romanian capitals Ă, Ș, Ț (with their
 * cedilla forms Ş, Ţ).
 */
module JsStrings {

  /** ECMAScript WhiteSpace and LineTerminator code points. */
  predicate IsWhitespace(c: char) {
    c == '\t' || c == '\n' || c == '\U{000B}' || c == '\U{000C}' || c == '\r' || c == ' ' ||
    c == '\U{00A0}' || c == '\U{1680}' || ('\U{2000}' <= c <= '\U{200A}') ||
    c == '\U{2028}' || c == '\U{2029}' || c == '\U{202F}' || c == '\U{205F}' ||
    c == '\U{3000}' || c == '\U{FEFF}'
  }

  /** Leading whitespace removed. */
  function TrimStart(s: string): (r: string)
    ensures |r| <= |s| && r == s[|s| - |r|..]
    ensures forall k :: 0 <= k < |s| - |r| ==> IsWhitespace(s[k])
    ensures r != [] ==> !IsWhitespace(r[0])
  {
    if s != [] && IsWhitespace(s[0]) then TrimStart(s[1..]) else s
  }

  /** Trailing whitespace removed. */
  function TrimEnd(s: string): (r: string)
    ensures |r| <= |s| && r == s[..|r|]
    ensures forall k :: |r| <= k < |s| ==> IsWhitespace(s[k])
    ensures r != [] ==> !IsWhitespace(r[|r| - 1])
  {
    if s != [] && IsWhitespace(s[|s| - 1]) then TrimEnd(s[..|s| - 1]) else s
  }

  /** JavaScript's `trim`: whitespace removed at both ends. */
  function Trim(s: string): (r: string)
    ensures r != [] ==> !IsWhitespace(r[0]) && !IsWhitespace(r[|r| - 1])
  {
    TrimEnd(TrimStart(s))
  }

  /** `trim` leaves nothing exactly when the string is all whitespace. */
  lemma TrimEmptyIffBlank(s: string)
    ensures Trim(s) == [] <==> forall i :: 0 <= i < |s| ==> IsWhitespace(s[i])
  {
    var t := TrimStart(s);
    assert t != [] ==> t[0] == s[|s| - |t|] && TrimEnd(t)[0] == t[0];
  }

  /**
   * `trim` keeps a contiguous part of the string, starting after the leading
   * whitespace, and drops only whitespace around it.
   */
  lemma TrimIsInfix(s: string)
    ensures var i := |s| - |TrimStart(s)|;
      i + |Trim(s)| <= |s| && Trim(s) == s[i..i + |Trim(s)|] &&
      (forall k :: 0 <= k < i ==> IsWhitespace(s[k])) &&
      (forall k :: i + |Trim(s)| <= k < |s| ==> IsWhitespace(s[k]))
  {
    var t := TrimStart(s);
    var r := Trim(s);
    var i := |s| - |t|;
    assert r == t[..|r|];
    assert s[i..i + |r|] == t[..|r|];
    forall k | i + |r| <= k < |s| ensures IsWhitespace(s[k]) {
      assert s[k] == t[k - i];
    }
  }

  /** `toLowerCase` on one character, for the characters this model covers. */
  function LowerChar(c: char): char {
    if 'A' <= c <= 'Z' || ('\U{00C0}' <= c <= '\U{00DE}' && c != '\U{00D7}') then (c as int + 32) as char
    else if c == '\U{0102}' || c == '\U{015E}' || c == '\U{0162}' || c == '\U{0218}' || c == '\U{021A}' then
      (c as int + 1) as char
    else c
  }

  /** JavaScript's `toLowerCase`, character by character. */
  function Lower(s: string): (r: string)
    ensures |r| == |s|
    ensures forall i :: 0 <= i < |s| ==> r[i] == LowerChar(s[i])
  {
    seq(|s|, i requires 0 <= i < |s| => LowerChar(s[i]))
  }

  /** Lower-casing twice is lower-casing once. */
  lemma LowerIdempotent(s: string)
    ensures Lower(Lower(s)) == Lower(s)
  {
    forall i | 0 <= i < |s| ensures LowerChar(LowerChar(s[i])) == LowerChar(s[i]) {
    }
  }

  /** Lower-casing never turns whitespace into text or text into whitespace. */
  lemma LowerCharKeepsWhitespace(c: char)
    ensures IsWhitespace(LowerChar(c)) == IsWhitespace(c)
  {
  }

  lemma {:induction false} TrimStartLower(s: string)
    ensures TrimStart(Lower(s)) == Lower(TrimStart(s))
    decreases |s|
  {
    if s != [] {
      LowerCharKeepsWhitespace(s[0]);
      assert Lower(s)[1..] == Lower(s[1..]);
      TrimStartLower(s[1..]);
    }
  }

  lemma {:induction false} TrimEndLower(s: string)
    ensures TrimEnd(Lower(s)) == Lower(TrimEnd(s))
    decreases |s|
  {
    if s != [] {
      LowerCharKeepsWhitespace(s[|s| - 1]);
      assert Lower(s)[..|s| - 1] == Lower(s[..|s| - 1]);
      TrimEndLower(s[..|s| - 1]);
    }
  }

  /** Trimming and lower-casing can be done in either order. */
  lemma TrimLowerCommute(s: string)
    ensures Trim(Lower(s)) == Lower(Trim(s))
  {
    TrimStartLower(s);
    TrimEndLower(TrimStart(s));
  }

  /** JavaScript's `includes`: `q` occurs in `text` at some position. */
  function Contains(text: string, q: string): bool
    decreases |text|
  {
    |q| <= |text| && (text[..|q|] == q || Contains(text[1..], q))
  }

  /** `q` occurs in `text` starting at position `i`. */
  predicate OccursAt(text: string, q: string, i: int) {
    0 <= i <= |text| - |q| && text[i..i + |q|] == q
  }

  lemma {:induction false} ContainsIffOccurs(text: string, q: string)
    ensures Contains(text, q) <==> exists i :: OccursAt(text, q, i)
    decreases |text|
  {
    if |q| <= |text| {
      if text[..|q|] == q {
        assert OccursAt(text, q, 0);
      } else {
        ContainsIffOccurs(text[1..], q);
        if Contains(text[1..], q) {
          var i :| OccursAt(text[1..], q, i);
          assert text[1..][i..i + |q|] == text[i + 1..i + 1 + |q|];
          assert OccursAt(text, q, i + 1);
        }
        forall i | OccursAt(text, q, i) ensures OccursAt(text[1..], q, i - 1) {
          assert i != 0;
          assert text[1..][i - 1..i - 1 + |q|] == text[i..i + |q|];
        }
      }
    }
  }

  /** Every string includes the empty string. */
  lemma ContainsEmpty(text: string)
    ensures Contains(text, [])
  {
  }
}
