/** lib/phone.js: normalising a messaging address to a phone number. */
module Phone {

  import opened Js

  predicate IsPlusOrDigit(c: char) {
    c == '+' || IsDigit(c)
  }

  /** The white space and line terminators matched by `\s` in a JavaScript regular expression. */
  predicate IsRegexSpace(c: char) {
    c == '\t' || c == '\n' || c == '\U{B}' || c == '\U{C}' || c == '\r' || c == ' '
    || c == '\U{A0}' || c == '\U{1680}' || '\U{2000}' <= c <= '\U{200A}'
    || c == '\U{2028}' || c == '\U{2029}' || c == '\U{202F}' || c == '\U{205F}'
    || c == '\U{3000}' || c == '\U{FEFF}'
  }

  /** ASCII letters to lower case, the only case folding a non-unicode `/i` pattern applies to ASCII text. */
  function AsciiLower(c: char): char {
    if 'A' <= c <= 'Z' then (c as int + 32) as char else c
  }

  const Prefix: string := "whatsapp:"

  predicate HasPrefix(s: string) {
    |s| >= |Prefix| && forall i :: 0 <= i < |Prefix| ==> AsciiLower(s[i]) == Prefix[i]
  }

  /** `.replace(/^whatsapp:/i, '')`: one leading `whatsapp:`, in any letter case, removed. */
  function StripPrefix(s: string): (r: string)
    ensures HasPrefix(s) ==> r == s[|Prefix|..]
    ensures !HasPrefix(s) ==> r == s
  {
    if HasPrefix(s) then s[|Prefix|..] else s
  }

  /** `.replace(/[\s\-()]/g, '')`: white space, `-`, `(` and `)` deleted. */
  function RemoveSeparators(s: string): (r: string)
    ensures |r| <= |s|
    ensures forall i :: 0 <= i < |r| ==> !IsRegexSpace(r[i]) && r[i] != '-' && r[i] != '(' && r[i] != ')'
    decreases |s|
  {
    if s == [] then []
    else if IsRegexSpace(s[0]) || s[0] == '-' || s[0] == '(' || s[0] == ')' then RemoveSeparators(s[1..])
    else [s[0]] + RemoveSeparators(s[1..])
  }

  /**
   * `.replace(/[^+\d]/g, '')`: everything but `+` and the ASCII digits deleted.
   */
  function KeepPlusDigits(s: string): (r: string)
    ensures |r| <= |s|
    ensures forall i :: 0 <= i < |r| ==> IsPlusOrDigit(r[i])
    decreases |s|
  {
    if s == [] then []
    else if IsPlusOrDigit(s[0]) then [s[0]] + KeepPlusDigits(s[1..])
    else KeepPlusDigits(s[1..])
  }

  /** What the filter keeps is all `+` or digits. */
  lemma {:induction false} KeptArePlusOrDigit(s: string)
    ensures forall i :: 0 <= i < |KeepPlusDigits(s)| ==> IsPlusOrDigit(KeepPlusDigits(s)[i])
    decreases |s|
  {
    if s != [] {
      KeptArePlusOrDigit(s[1..]);
    }
  }

  /** A string made only of `+` and digits passes the filter whole. */
  lemma {:induction false} KeepAllKept(s: string)
    requires forall i :: 0 <= i < |s| ==> IsPlusOrDigit(s[i])
    ensures KeepPlusDigits(s) == s
    decreases |s|
  {
    if s != [] {
      assert forall i :: 1 <= i < |s| ==> s[1..][i - 1] == s[i];
      KeepAllKept(s[1..]);
    }
  }

  /** sanitizePhoneNumber; called without an argument it sanitises the default `''`. */
  function SanitizePhoneNumber(input: string): (r: string)
    ensures |r| <= |input|
    ensures forall i :: 0 <= i < |r| ==> IsPlusOrDigit(r[i])
  {
    KeptArePlusOrDigit(RemoveSeparators(StripPrefix(input)));
    KeepPlusDigits(RemoveSeparators(StripPrefix(input)))
  }

  /** The third filter works character by character: it distributes over concatenation, keeping order. */
  lemma {:induction false} KeepAppend(a: string, b: string)
    ensures KeepPlusDigits(a + b) == KeepPlusDigits(a) + KeepPlusDigits(b)
    decreases |a|
  {
    if a == [] {
      assert a + b == b;
    } else {
      assert (a + b)[0] == a[0] && (a + b)[1..] == a[1..] + b;
      KeepAppend(a[1..], b);
    }
  }

  /** The second filter only deletes characters the third deletes too. */
  lemma {:induction false} KeepAfterRemove(s: string)
    ensures KeepPlusDigits(RemoveSeparators(s)) == KeepPlusDigits(s)
    decreases |s|
  {
    if s != [] {
      KeepAfterRemove(s[1..]);
      if !(IsRegexSpace(s[0]) || s[0] == '-' || s[0] == '(' || s[0] == ')') {
        KeepAppend([s[0]], RemoveSeparators(s[1..]));
        KeepAppend([s[0]], s[1..]);
        assert s == [s[0]] + s[1..];
      }
    }
  }

  /** The first filter only deletes characters the third deletes too: a `whatsapp:` prefix has no `+` or digit. */
  lemma KeepAfterStrip(s: string)
    ensures KeepPlusDigits(StripPrefix(s)) == KeepPlusDigits(s)
  {
    if HasPrefix(s) {
      var p := s[..|Prefix|];
      assert s == p + s[|Prefix|..];
      KeepAppend(p, s[|Prefix|..]);
      assert forall i :: 0 <= i < |p| ==> !IsPlusOrDigit(p[i]) by {
        forall i | 0 <= i < |p| ensures !IsPlusOrDigit(p[i]) {
          assert AsciiLower(p[i]) == Prefix[i];
        }
      }
      NothingKept(p);
    }
  }

  lemma {:induction false} NothingKept(s: string)
    requires forall i :: 0 <= i < |s| ==> !IsPlusOrDigit(s[i])
    ensures KeepPlusDigits(s) == []
    decreases |s|
  {
    if s != [] {
      assert forall i :: 1 <= i < |s| ==> s[1..][i - 1] == s[i];
      NothingKept(s[1..]);
    }
  }

  /**
   * The whole chain equals its last filter: the output is the input with every
   * character other than `+` and 0-9 deleted, in the original order.
   */
  lemma SanitizeKeepsPlusAndDigits(s: string)
    ensures SanitizePhoneNumber(s) == KeepPlusDigits(s)
  {
    KeepAfterStrip(s);
    KeepAfterRemove(StripPrefix(s));
  }

  /** Sanitising a sanitised number changes nothing. */
  lemma SanitizeIdempotent(s: string)
    ensures SanitizePhoneNumber(SanitizePhoneNumber(s)) == SanitizePhoneNumber(s)
  {
    var r := SanitizePhoneNumber(s);
    SanitizeKeepsPlusAndDigits(r);
    KeptArePlusOrDigit(s);
    KeepAllKept(r);
  }

  /** Separators followed by digits: only the digits pass the filter. */
  lemma KeepPair(sep: string, digits: string)
    requires forall i :: 0 <= i < |sep| ==> !IsPlusOrDigit(sep[i])
    requires forall i :: 0 <= i < |digits| ==> IsPlusOrDigit(digits[i])
    ensures KeepPlusDigits(sep + digits) == digits
  {
    KeepAppend(sep, digits);
    NothingKept(sep);
    KeepAllKept(digits);
  }

  /** No character of `s` survives the filter. */
  predicate Dropped(s: string) {
    forall i :: 0 <= i < |s| ==> !IsPlusOrDigit(s[i])
  }

  /** Every character of `s` survives the filter. */
  predicate Kept(s: string) {
    forall i :: 0 <= i < |s| ==> IsPlusOrDigit(s[i])
  }

  /** The filter applied to a number written as four groups, each after its separators. */
  lemma KeepPieces(s: string, p: string, d1: string, s1: string, d2: string, s2: string, d3: string, s3: string, d4: string)
    requires s == (p + d1) + (s1 + d2) + (s2 + d3) + (s3 + d4)
    requires Dropped(p) && Dropped(s1) && Dropped(s2) && Dropped(s3)
    requires Kept(d1) && Kept(d2) && Kept(d3) && Kept(d4)
    ensures KeepPlusDigits(s) == d1 + d2 + d3 + d4
  {
    KeepPair(p, d1);
    KeepPair(s1, d2);
    KeepPair(s2, d3);
    KeepPair(s3, d4);
    KeepAppend((p + d1) + (s1 + d2) + (s2 + d3), s3 + d4);
    KeepAppend((p + d1) + (s1 + d2), s2 + d3);
    KeepAppend(p + d1, s1 + d2);
  }

  /**
   * A number written as four digit groups behind separators and an optional
   * `whatsapp:` prefix comes out as the digit groups run together.
   */
  lemma SanitizeFormatted(s: string, p: string, d1: string, s1: string, d2: string, s2: string, d3: string, s3: string, d4: string)
    requires s == (p + d1) + (s1 + d2) + (s2 + d3) + (s3 + d4)
    requires Dropped(p) && Dropped(s1) && Dropped(s2) && Dropped(s3)
    requires Kept(d1) && Kept(d2) && Kept(d3) && Kept(d4)
    ensures SanitizePhoneNumber(s) == d1 + d2 + d3 + d4
  {
    SanitizeKeepsPlusAndDigits(s);
    KeepPieces(s, p, d1, s1, d2, s2, d3, s3, d4);
  }

  lemma ExampleInput(input: string)
    requires input == "whatsapp:+1 (234) 567-8900"
    ensures input == ("whatsapp:" + "+1") + (" (" + "234") + (") " + "567") + ("-" + "8900")
  {
  }

  lemma ExampleGroups()
    ensures Dropped("whatsapp:") && Dropped(" (") && Dropped(") ") && Dropped("-")
    ensures Kept("+1") && Kept("234") && Kept("567") && Kept("8900")
    ensures "+1" + "234" + "567" + "8900" == "+12345678900"
  {
  }

  /** The unit test's case: the prefix, spaces, parentheses and dashes go. */
  lemma SanitizeExample(input: string)
    requires input == "whatsapp:+1 (234) 567-8900"
    ensures SanitizePhoneNumber(input) == "+12345678900"
  {
    ExampleInput(input);
    ExampleGroups();
    SanitizeFormatted(input, "whatsapp:", "+1", " (", "234", ") ", "567", "-", "8900");
  }

  /**
   * No plausibility check: a `+` is kept wherever it stands, not only in front,
   * and the empty input gives the empty output.
   */
  lemma SanitizeKeepsInnerPlus()
    ensures SanitizePhoneNumber("12+34") == "12+34"
    ensures SanitizePhoneNumber("++") == "++"
    ensures SanitizePhoneNumber("") == ""
  {
    KeptExamples();
    SanitizeFixedPoints("12+34");
    SanitizeFixedPoints("++");
    SanitizeFixedPoints("");
  }

  lemma KeptExamples()
    ensures Kept("12+34") && Kept("++") && Kept("")
  {
  }

  /** The strings sanitising leaves unchanged are exactly those made of `+` and digits only. */
  lemma SanitizeFixedPoints(s: string)
    ensures SanitizePhoneNumber(s) == s <==> Kept(s)
  {
    SanitizeKeepsPlusAndDigits(s);
    if Kept(s) {
      KeepAllKept(s);
    }
  }
}
