/**
 * The WhatsApp deep link: `https://wa.me/<phone>?text=<message>`, where the
 * phone segment is the configured number with everything but `+` and the
 * digits removed and then one leading `+` dropped, and the message is
 * percent-encoded by `encodeURIComponent`.
 */
module WaLink {
  import opened Wrappers
  import opened UriEncoding

  /** The business number as configured, with its international prefix. */
  const WhatsappNumber: string := "+40757283580"

  /** The message used when the caller passes none. */
  const DefaultMessage: string :=
    "Salut, a\U{0219} vrea o rezervare pentru transport Rom\U{00E2}nia\U{2013}UK. Mul\U{021B}umesc!"

  const LinkPrefix: string := "https://wa.me/"
  const TextParam: string := "?text="

  predicate IsDigit(c: char) {
    '0' <= c <= '9'
  }

  /** The characters the number cleaning keeps. */
  predicate IsPhoneChar(c: char) {
    c == '+' || IsDigit(c)
  }

  /**
   * Drops every character other than `+` and the digits: each `+` and digit
   * of `s` is kept as often as it occurs, and nothing else is.
   */
  function KeepPhoneChars(s: string): (r: string)
    ensures |r| <= |s|
    ensures forall i :: 0 <= i < |r| ==> IsPhoneChar(r[i])
    ensures multiset(r) <= multiset(s)
    ensures forall i :: 0 <= i < |s| && IsPhoneChar(s[i]) ==> multiset(r)[s[i]] == multiset(s)[s[i]]
  {
    if s == [] then []
    else
      assert s == [s[0]] + s[1..];
      (if IsPhoneChar(s[0]) then [s[0]] else []) + KeepPhoneChars(s[1..])
  }

  /** Only the digits of `s`: each digit kept as often as it occurs, and nothing else. */
  function KeepDigits(s: string): (r: string)
    ensures |r| <= |s|
    ensures forall i :: 0 <= i < |r| ==> IsDigit(r[i])
    ensures multiset(r) <= multiset(s)
    ensures forall i :: 0 <= i < |s| && IsDigit(s[i]) ==> multiset(r)[s[i]] == multiset(s)[s[i]]
  {
    if s == [] then []
    else
      assert s == [s[0]] + s[1..];
      (if IsDigit(s[0]) then [s[0]] else []) + KeepDigits(s[1..])
  }

  /** The cleaning keeps order: cleaning a concatenation cleans each part in place. */
  lemma {:induction false} KeepPhoneCharsAppend(a: string, b: string)
    ensures KeepPhoneChars(a + b) == KeepPhoneChars(a) + KeepPhoneChars(b)
  {
    if a != [] {
      assert (a + b)[1..] == a[1..] + b;
      KeepPhoneCharsAppend(a[1..], b);
    } else {
      assert a + b == b;
    }
  }

  lemma {:induction false} KeepDigitsAppend(a: string, b: string)
    ensures KeepDigits(a + b) == KeepDigits(a) + KeepDigits(b)
  {
    if a != [] {
      assert (a + b)[1..] == a[1..] + b;
      KeepDigitsAppend(a[1..], b);
    } else {
      assert a + b == b;
    }
  }

  /** Drops one leading `+`, if there is one; a second `+` stays. */
  function StripLeadingPlus(s: string): (r: string)
    ensures s == r || s == "+" + r
    ensures |r| < |s| <==> (|s| > 0 && s[0] == '+')
  {
    if |s| > 0 && s[0] == '+' then s[1..] else s
  }

  /** The phone segment of the link for a configured number. */
  function PhoneSegment(number: string): (r: string)
    ensures forall i :: 0 <= i < |r| ==> IsPhoneChar(r[i])
  {
    StripLeadingPlus(KeepPhoneChars(number))
  }

  /**
   * The link for a given number and message: it carries exactly the
   * number's phone segment and the message.
   */
  function Link(number: string, message: string): (r: string)
    ensures ParseLink(r) == Some((PhoneSegment(number), message))
  {
    ParseLinkOfParts(PhoneSegment(number), message);
    LinkPrefix + PhoneSegment(number) + TextParam + EncodeUriComponent(message)
  }

  /**
   * `buildWaLink`; `None` is a call without an argument, which uses the
   * default message. The link is the fixed prefix with the configured
   * number's eleven digits, then the encoded message.
   */
  function BuildWaLink(message: Option<string>): (r: string)
    ensures r == LinkPrefix + "40757283580" + TextParam + EncodeUriComponent(message.GetOr(DefaultMessage))
    ensures ParseLink(r) == Some(("40757283580", message.GetOr(DefaultMessage)))
  {
    PhoneSegmentOfConfiguredNumber();
    Link(WhatsappNumber, message.GetOr(DefaultMessage))
  }

  /** The first position of `c` in `s`, if any. */
  function IndexOf(s: string, c: char): (r: Option<nat>)
    ensures r.Some? ==> r.value < |s| && s[r.value] == c
    ensures r.Some? ==> forall i :: 0 <= i < r.value ==> s[i] != c
    ensures r.None? ==> forall i :: 0 <= i < |s| ==> s[i] != c
  {
    if s == [] then None
    else if s[0] == c then Some(0)
    else
      match IndexOf(s[1..], c)
      case None => None
      case Some(k) => Some(k + 1)
  }

  /**
   * Reads a link back into its phone segment and its message: the inverse
   * of `Link`, used here only to state what the link carries.
   */
  function ParseLink(link: string): Option<(string, string)> {
    if |link| < |LinkPrefix| || link[..|LinkPrefix|] != LinkPrefix then None
    else ParseAfterPrefix(link[|LinkPrefix|..])
  }

  /** Splits `<phone>?text=<encoded>` at its first `?`. */
  function ParseAfterPrefix(rest: string): Option<(string, string)> {
    match IndexOf(rest, '?')
    case None => None
    case Some(k) => ParseQuery(rest[..k], rest[k..])
  }

  function ParseQuery(phone: string, query: string): Option<(string, string)> {
    if |query| < |TextParam| || query[..|TextParam|] != TextParam then None
    else
      match DecodeUriComponent(query[|TextParam|..])
      case None => None
      case Some(message) => Some((phone, message))
  }

  /** A link assembled from a phone segment and a message reads back as both. */
  lemma ParseLinkOfParts(phone: string, message: string)
    requires forall i :: 0 <= i < |phone| ==> IsPhoneChar(phone[i])
    ensures ParseLink(LinkPrefix + phone + TextParam + EncodeUriComponent(message)) == Some((phone, message))
  {
    var query := TextParam + EncodeUriComponent(message);
    var rest := phone + query;
    assert LinkPrefix + phone + TextParam + EncodeUriComponent(message) == LinkPrefix + rest;
    SplitAfterPrefix(LinkPrefix, rest);
    ParseAfterPrefixOf(phone, query, message);
  }

  lemma ParseAfterPrefixOf(phone: string, query: string, message: string)
    requires forall i :: 0 <= i < |phone| ==> IsPhoneChar(phone[i])
    requires query == TextParam + EncodeUriComponent(message)
    ensures ParseAfterPrefix(phone + query) == Some((phone, message))
  {
    assert forall i :: 0 <= i < |phone| ==> phone[i] != '?';
    IndexOfAfterFree(phone, query, '?');
    SplitAfterPrefix(phone, query);
    ParseQueryOf(phone, message);
  }

  lemma ParseQueryOf(phone: string, message: string)
    ensures ParseQuery(phone, TextParam + EncodeUriComponent(message)) == Some((phone, message))
  {
    SplitAfterPrefix(TextParam, EncodeUriComponent(message));
    DecodeEncode(message);
  }

  lemma SplitAfterPrefix(p: string, r: string)
    ensures (p + r)[..|p|] == p && (p + r)[|p|..] == r
  {
  }

  /** The first `c` of `a + b` is the head of `b` when `a` has none. */
  lemma {:induction false} IndexOfAfterFree(a: string, b: string, c: char)
    requires forall i :: 0 <= i < |a| ==> a[i] != c
    requires |b| > 0 && b[0] == c
    ensures IndexOf(a + b, c) == Some(|a|)
  {
    if a != [] {
      assert (a + b)[1..] == a[1..] + b;
      IndexOfAfterFree(a[1..], b, c);
    }
  }

  /** Two links are equal only when they carry the same phone segment and message. */
  lemma LinkInjective(n1: string, m1: string, n2: string, m2: string)
    requires Link(n1, m1) == Link(n2, m2)
    ensures PhoneSegment(n1) == PhoneSegment(n2) && m1 == m2
  {
    assert ParseLink(Link(n1, m1)) == ParseLink(Link(n2, m2));
  }

  /** For the configured number the phone segment is its eleven digits. */
  lemma PhoneSegmentOfConfiguredNumber()
    ensures PhoneSegment(WhatsappNumber) == "40757283580"
  {
    ConfiguredNumberSplits();
    ConfiguredDigits("40757283580");
  }

  lemma ConfiguredNumberSplits()
    ensures WhatsappNumber == "+" + "40757283580"
  {
  }

  lemma ConfiguredDigits(digits: string)
    requires digits == "40757283580"
    ensures PhoneSegment("+" + digits) == digits
  {
    assert forall i :: 0 <= i < |digits| ==> IsDigit(digits[i]);
    NumberWithoutPlus(digits);
  }

  lemma {:induction false} NumberWithoutPlus(digits: string)
    requires forall i :: 0 <= i < |digits| ==> IsDigit(digits[i])
    ensures KeepPhoneChars(digits) == digits
    ensures KeepPhoneChars("+" + digits) == "+" + digits
    ensures PhoneSegment("+" + digits) == digits
  {
    if digits != [] {
      NumberWithoutPlus(digits[1..]);
      assert [digits[0]] + digits[1..] == digits;
    }
    assert ("+" + digits)[1..] == digits;
  }

  /** Without any `+`, keeping phone characters keeps exactly the digits. */
  lemma {:induction false} NoPlusKeepsDigits(s: string)
    requires forall i :: 0 <= i < |s| ==> s[i] != '+'
    ensures KeepPhoneChars(s) == KeepDigits(s)
  {
    if s != [] {
      NoPlusKeepsDigits(s[1..]);
    }
  }

  /**
   * When no `+` or digit comes before a `+` (so at most one `+` survives
   * the cleaning, and it comes first), the phone segment is exactly the
   * digits of the number.
   */
  lemma {:induction false} PhoneSegmentIsDigits(number: string)
    requires forall i, j :: 0 <= i < j < |number| && number[j] == '+' ==> !IsPhoneChar(number[i])
    ensures PhoneSegment(number) == KeepDigits(number)
  {
    if number == [] {
    } else if !IsPhoneChar(number[0]) {
      var tail := number[1..];
      PlusOrderOnTail(number);
      PhoneSegmentIsDigits(tail);
      assert KeepPhoneChars(number) == [] + KeepPhoneChars(tail);
      assert KeepDigits(number) == [] + KeepDigits(tail);
    } else {
      LeadingPhoneChar(number);
    }
  }

  lemma PlusOrderOnTail(number: string)
    requires |number| > 0
    requires forall i, j :: 0 <= i < j < |number| && number[j] == '+' ==> !IsPhoneChar(number[i])
    ensures forall i, j :: 0 <= i < j < |number[1..]| && number[1..][j] == '+' ==> !IsPhoneChar(number[1..][i])
  {
    var tail := number[1..];
    forall i, j | 0 <= i < j < |tail| && tail[j] == '+' ensures !IsPhoneChar(tail[i]) {
      assert number[i + 1] == tail[i] && number[j + 1] == tail[j];
    }
  }

  lemma LeadingPhoneChar(number: string)
    requires |number| > 0 && IsPhoneChar(number[0])
    requires forall i, j :: 0 <= i < j < |number| && number[j] == '+' ==> !IsPhoneChar(number[i])
    ensures PhoneSegment(number) == KeepDigits(number)
  {
    var tail := number[1..];
    assert forall j :: 0 <= j < |tail| ==> tail[j] != '+' by {
      forall j | 0 <= j < |tail| ensures tail[j] != '+' {
        assert number[j + 1] == tail[j];
      }
    }
    NoPlusKeepsDigits(tail);
    if number[0] == '+' {
      assert KeepPhoneChars(number) == "+" + KeepDigits(tail);
    } else {
      assert KeepPhoneChars(number) == [number[0]] + KeepDigits(tail);
    }
  }
}
