/**
 * Percent-encoding as the handlers use it, modelled once and shared:
 *  - encodeURIComponent and decodeURIComponent (ECMA-262 section 19.2.6,
 *    escapes of UTF-8 octets per section 2.1 of RFC 3986);
 *  - the application/x-www-form-urlencoded parser behind URLSearchParams
 *    (section 5.1 of the WHATWG URL Standard), which is also how query strings
 *    are read from request URLs.
 */
module Uri {

  import opened Js
  import Unicode

  type Byte = Unicode.Byte

  /** The characters encodeURIComponent leaves alone: letters, digits and `-_.!~*'()`. */
  predicate IsUnreserved(c: char) {
    'A' <= c <= 'Z' || 'a' <= c <= 'z' || '0' <= c <= '9'
    || c == '-' || c == '_' || c == '.' || c == '!' || c == '~' || c == '*' || c == '\'' || c == '(' || c == ')'
  }

  predicate AllUnreserved(s: string) {
    forall i :: 0 <= i < |s| ==> IsUnreserved(s[i])
  }

  /** Upper-case hexadecimal digit, as in the escapes encodeURIComponent produces. */
  function HexDigit(d: nat): (c: char)
    requires d < 16
    ensures IsUnreserved(c)
  {
    if d < 10 then ('0' as int + d) as char else ('A' as int + d - 10) as char
  }

  /** The value of a hexadecimal digit of either case. */
  function HexValue(c: char): (r: Option<nat>)
    ensures r.Some? ==> r.value < 16
  {
    if '0' <= c <= '9' then Some(c as int - '0' as int)
    else if 'A' <= c <= 'F' then Some(c as int - 'A' as int + 10)
    else if 'a' <= c <= 'f' then Some(c as int - 'a' as int + 10)
    else None
  }

  lemma HexValueDigit(d: nat)
    requires d < 16
    ensures HexValue(HexDigit(d)) == Some(d)
  {
  }

  /** "%XY" for one octet. */
  function EscapeByte(b: Byte): (r: string)
    ensures |r| == 3 && r[0] == '%' && IsUnreserved(r[1]) && IsUnreserved(r[2])
  {
    ['%', HexDigit(b / 16), HexDigit(b % 16)]
  }

  function EscapeBytes(bs: seq<Byte>): (r: string)
    ensures |r| == 3 * |bs|
    ensures forall i :: 0 <= i < |r| ==> r[i] == '%' || IsUnreserved(r[i])
    decreases |bs|
  {
    if bs == [] then [] else EscapeByte(bs[0]) + EscapeBytes(bs[1..])
  }

  /** One character of encodeURIComponent's output: itself, or its UTF-8 octets escaped. */
  function EncodeUriChar(c: char): (r: string)
    ensures 1 <= |r|
    ensures forall i :: 0 <= i < |r| ==> r[i] == '%' || IsUnreserved(r[i])
  {
    if IsUnreserved(c) then [c] else EscapeBytes(Unicode.EncodeChar(c))
  }

  /**
   * encodeURIComponent. Every character of the result is unreserved or `%`,
   * so none of `&`, `=`, `+`, `#`, `?` or a space survives; an all-unreserved
   * string is returned unchanged.
   */
  function EncodeUriComponent(s: string): (r: string)
    ensures |r| >= |s|
    ensures forall i :: 0 <= i < |r| ==> r[i] == '%' || IsUnreserved(r[i])
    ensures AllUnreserved(s) ==> r == s
    decreases |s|
  {
    if s == [] then [] else EncodeUriChar(s[0]) + EncodeUriComponent(s[1..])
  }

  /** ParseHexOctet(s, k): the octet written by the two hexadecimal digits at `k` and `k + 1`. */
  function HexOctet(s: string, k: nat): (r: Option<Byte>)
    ensures r.Some? ==> k + 2 <= |s|
  {
    if k + 2 <= |s| && HexValue(s[k]).Some? && HexValue(s[k + 1]).Some? then
      Some(HexValue(s[k]).value * 16 + HexValue(s[k + 1]).value)
    else None
  }

  /** The octets of `n` consecutive escapes "%XY" at the front of `s`, or None if they are not there. */
  function Escapes(s: string, n: nat): (r: Option<seq<Byte>>)
    ensures r.Some? ==> |r.value| == n && 3 * n <= |s|
    decreases n
  {
    if n == 0 then Some([])
    else if |s| >= 3 && s[0] == '%' && HexOctet(s, 1).Some? then
      match Escapes(s[3..], n - 1)
      case None => None
      case Some(rest) => Some([HexOctet(s, 1).value] + rest)
    else None
  }

  /** "Octets contains a valid UTF-8 encoding of a Unicode code point": no overlong form, no surrogate. */
  predicate ValidSequence(octets: seq<Byte>) {
    && 2 <= |octets| <= 4
    && (forall j :: 1 <= j < |octets| ==> Unicode.IsContinuation(octets[j]))
    && Unicode.SequenceValue(octets) >= Unicode.MinValue(|octets|)
    && Unicode.IsScalarValue(Unicode.SequenceValue(octets))
  }

  function Prepend(c: char, r: Option<string>): Option<string> {
    match r
    case None => None
    case Some(t) => Some([c] + t)
  }

  /**
   * The character written by the escape (or run of escapes) at the front of
   * `s`, which starts with `%`, and how many characters it takes. None is a
   * URIError: a `%` without two hexadecimal digits, a lone continuation octet,
   * a truncated sequence, or octets that are not a valid UTF-8 encoding.
   */
  function DecodeEscape(s: string): (r: Option<(char, nat)>)
    requires |s| > 0 && s[0] == '%'
    ensures r.Some? ==> 3 <= r.value.1 <= |s|
  {
    if |s| < 3 then None
    else match HexOctet(s, 1)
      case None => None
      case Some(b) =>
        var n := Unicode.LeadingOnes(b);
        if n == 0 then Some((b as char, 3))
        else if n == 1 || n > 4 then None
        else match Escapes(s[3..], n - 1)
          case None => None
          case Some(conts) =>
            var octets := [b] + conts;
            if ValidSequence(octets) then Some((Unicode.SequenceValue(octets) as char, 3 * n))
            else None
  }

  /** decodeURIComponent (ECMA-262 Decode with an empty preserve set); None is the URIError it throws. */
  function DecodeUriComponent(s: string): (r: Option<string>)
    ensures '%' !in s ==> r == Some(s)
    decreases |s|
  {
    if s == [] then Some([])
    else if s[0] != '%' then
      assert '%' !in s ==> '%' !in s[1..] && s == [s[0]] + s[1..];
      Prepend(s[0], DecodeUriComponent(s[1..]))
    else match DecodeEscape(s)
      case None => None
      case Some((c, len)) => Prepend(c, DecodeUriComponent(s[len..]))
  }

  /**
   * An escape that cannot start a character: a `%` without two hexadecimal
   * digits after it, or one whose octet is a continuation octet or no UTF-8
   * lead octet at all.
   */
  predicate BadEscape(s: string) {
    && |s| > 0 && s[0] == '%'
    && (|s| < 3 || HexOctet(s, 1).None?
        || Unicode.LeadingOnes(HexOctet(s, 1).value) == 1 || Unicode.LeadingOnes(HexOctet(s, 1).value) > 4)
  }

  /** Text without `%` followed by a bad escape makes decodeURIComponent throw. */
  lemma {:induction false} DecodeBadEscape(plain: string, s: string)
    requires '%' !in plain && BadEscape(s)
    ensures DecodeUriComponent(plain + s) == None
    decreases |plain|
  {
    if plain == [] {
      assert plain + s == s;
      assert DecodeEscape(s) == None;
    } else {
      assert (plain + s)[1..] == plain[1..] + s;
      DecodeBadEscape(plain[1..], s);
    }
  }

  /** The two digits of an escape read back as its octet. */
  lemma HexOctetEscape(b: Byte, t: string)
    ensures HexOctet(EscapeByte(b) + t, 1) == Some(b)
  {
    var s := EscapeByte(b) + t;
    HexValueDigit(b / 16);
    HexValueDigit(b % 16);
    assert s[1] == HexDigit(b / 16) && s[2] == HexDigit(b % 16);
    assert (b / 16) * 16 + b % 16 == b;
  }

  lemma {:induction false} EscapesOf(bs: seq<Byte>, t: string)
    ensures Escapes(EscapeBytes(bs) + t, |bs|) == Some(bs)
    ensures (EscapeBytes(bs) + t)[3 * |bs|..] == t
    decreases |bs|
  {
    var s := EscapeBytes(bs) + t;
    if bs != [] {
      var e := EscapeByte(bs[0]);
      assert s == e + (EscapeBytes(bs[1..]) + t);
      HexOctetEscape(bs[0], EscapeBytes(bs[1..]) + t);
      assert s[3..] == EscapeBytes(bs[1..]) + t;
      EscapesOf(bs[1..], t);
      Unfold(bs);
    } else {
      assert s == t;
    }
  }

  /** The escapes of a character's UTF-8 octets decode to that character. */
  lemma DecodeEscapeOf(c: char, t: string)
    requires !IsUnreserved(c)
    ensures DecodeEscape(EncodeUriChar(c) + t) == Some((c, |EncodeUriChar(c)|))
  {
    var e := Unicode.EncodeChar(c);
    assert EncodeUriChar(c) == EscapeBytes(e);
    if c as int < 0x80 {
      assert e == [c as int];
      DecodeEscapeAscii(c as int, t);
    } else {
      DecodeEscapeMulti(c, t);
    }
  }

  /** A single escape of an ASCII octet decodes to that octet's character. */
  lemma DecodeEscapeAscii(b: Byte, t: string)
    requires b < 0x80
    ensures DecodeEscape(EscapeBytes([b]) + t) == Some((b as char, 3))
  {
    assert EscapeBytes([b]) == EscapeByte(b) + EscapeBytes([]);
    assert EscapeBytes([b]) + t == EscapeByte(b) + t;
    HexOctetEscape(b, t);
  }

  /** The first escape of a run, and what follows it. */
  lemma EscapesSplit(bs: seq<Byte>, t: string)
    requires bs != []
    ensures EscapeBytes(bs) + t == EscapeByte(bs[0]) + (EscapeBytes(bs[1..]) + t)
    ensures (EscapeBytes(bs) + t)[3..] == EscapeBytes(bs[1..]) + t
  {
    var a, b := EscapeByte(bs[0]), EscapeBytes(bs[1..]);
    assert EscapeBytes(bs) == a + b;
    Regroup(a, b, t);
  }

  lemma Regroup<T>(a: seq<T>, b: seq<T>, t: seq<T>)
    ensures (a + b) + t == a + (b + t)
    ensures (a + (b + t))[|a|..] == b + t
  {
  }

  lemma DecodeEscapeMulti(c: char, t: string)
    requires c as int >= 0x80
    ensures DecodeEscape(EscapeBytes(Unicode.EncodeChar(c)) + t) == Some((c, 3 * |Unicode.EncodeChar(c)|))
  {
    var e := Unicode.EncodeChar(c);
    Unicode.SequenceValueEncode(c);
    assert ValidSequence(e);
    DecodeEscapeRun(e, t);
  }

  /**
   * A run of escapes whose octets form a valid multi-octet UTF-8 sequence,
   * announced by its lead octet, decodes to the character it encodes.
   */
  lemma DecodeEscapeRun(e: seq<Byte>, t: string)
    requires ValidSequence(e) && Unicode.LeadingOnes(e[0]) == |e|
    ensures DecodeEscape(EscapeBytes(e) + t) == Some((Unicode.SequenceValue(e) as char, 3 * |e|))
  {
    Unfold(e);
    EscapesSplit(e, t);
    DecodeLeadAndContinuations(e[0], e[1..], t);
  }

  lemma DecodeLeadAndContinuations(b: Byte, conts: seq<Byte>, t: string)
    requires ValidSequence([b] + conts) && Unicode.LeadingOnes(b) == |conts| + 1
    ensures DecodeEscape(EscapeByte(b) + (EscapeBytes(conts) + t))
         == Some((Unicode.SequenceValue([b] + conts) as char, 3 * (|conts| + 1)))
  {
    var rest := EscapeBytes(conts) + t;
    HexOctetEscape(b, rest);
    EscapesOf(conts, t);
    Regroup(EscapeByte(b), EscapeBytes(conts), t);
  }

  lemma Unfold<T>(e: seq<T>)
    requires e != []
    ensures e == [e[0]] + e[1..]
  {
  }

  /** Decoding undoes the encoding of one character. */
  lemma DecodeEncodeUriChar(c: char, t: string)
    ensures DecodeUriComponent(EncodeUriChar(c) + t) == Prepend(c, DecodeUriComponent(t))
  {
    var s := EncodeUriChar(c) + t;
    if IsUnreserved(c) {
      assert s[0] == c && s[1..] == t;
    } else {
      DecodeEscapeOf(c, t);
      assert s[0] == '%';
      assert s[|EncodeUriChar(c)|..] == t;
    }
  }

  lemma DecodeStep(c: char, rest: string, tail: string)
    requires DecodeUriComponent(rest) == Some(tail)
    ensures DecodeUriComponent(EncodeUriChar(c) + rest) == Some([c] + tail)
  {
    DecodeEncodeUriChar(c, rest);
  }

  lemma EncodeCons(s: string)
    requires s != []
    ensures EncodeUriComponent(s) == EncodeUriChar(s[0]) + EncodeUriComponent(s[1..])
  {
  }

  /** decodeURIComponent(encodeURIComponent(s)) == s, for every string. */
  lemma {:induction false} DecodeEncode(s: string)
    ensures DecodeUriComponent(EncodeUriComponent(s)) == Some(s)
    decreases |s|
  {
    if s != [] {
      DecodeEncode(s[1..]);
      Unfold(s);
      EncodeCons(s);
      DecodeStep(s[0], EncodeUriComponent(s[1..]), s[1..]);
    }
  }

  // ---------------------------------------------------------------------------
  // application/x-www-form-urlencoded

  /** Percent-decoding of a byte sequence (WHATWG URL section 1.3): a `%` without two hex digits stays as it is. */
  function PercentDecode(bs: seq<Byte>): (r: seq<Byte>)
    ensures 0x25 !in bs ==> r == bs
    decreases |bs|
  {
    if bs == [] then []
    else if bs[0] == 0x25 && |bs| >= 3 && HexValue(bs[1] as char).Some? && HexValue(bs[2] as char).Some? then
      [HexValue(bs[1] as char).value * 16 + HexValue(bs[2] as char).value] + PercentDecode(bs[3..])
    else
      assert 0x25 !in bs ==> 0x25 !in bs[1..] && bs == [bs[0]] + bs[1..];
      [bs[0]] + PercentDecode(bs[1..])
  }

  /** A name or value of a form-urlencoded pair: `+` to space, percent-decode, UTF-8 decode with replacement. */
  function FormDecode(bs: seq<Byte>): string {
    Unicode.Decode(PercentDecode(Substitute(bs, 0x2B, 0x20)))
  }

  /** Strictly splitting a byte sequence on a separator: always at least one (possibly empty) part. */
  function Split(bs: seq<Byte>, sep: Byte): (parts: seq<seq<Byte>>)
    ensures |parts| >= 1
    decreases |bs|
  {
    if sep !in bs then [bs] else var i := IndexOf(bs, sep); [bs[..i]] + Split(bs[i + 1..], sep)
  }

  /** One `name=value` sequence; without `=`, the whole sequence is the name and the value is empty. */
  function ParsePair(bytes: seq<Byte>): (string, string) {
    if 0x3D in bytes then
      var i := IndexOf(bytes, 0x3D);
      (FormDecode(bytes[..i]), FormDecode(bytes[i + 1..]))
    else (FormDecode(bytes), "")
  }

  /** The pairs of the non-empty sequences, in order. */
  function ParsePairs(sequences: seq<seq<Byte>>): (r: seq<(string, string)>)
    ensures |r| <= |sequences|
    decreases |sequences|
  {
    if sequences == [] then []
    else if sequences[0] == [] then ParsePairs(sequences[1..])
    else [ParsePair(sequences[0])] + ParsePairs(sequences[1..])
  }

  /** The application/x-www-form-urlencoded parser (WHATWG URL section 5.1). */
  function ParseForm(bs: seq<Byte>): (r: seq<(string, string)>)
    ensures |r| <= |Split(bs, 0x26)|
    ensures 0x26 !in bs ==> r == (if bs == [] then [] else [ParsePair(bs)])
  {
    ParsePairs(Split(bs, 0x26))
  }

  /** The value of the first pair with the given name (URLSearchParams.get); None is `null`. */
  function Lookup(pairs: seq<(string, string)>, name: string): (r: Option<string>)
    ensures r.Some? ==> exists i :: 0 <= i < |pairs| && pairs[i] == (name, r.value)
    ensures r.None? <==> forall i :: 0 <= i < |pairs| ==> pairs[i].0 != name
    decreases |pairs|
  {
    if pairs == [] then None
    else if pairs[0].0 == name then Some(pairs[0].1)
    else
      var r := Lookup(pairs[1..], name);
      assert forall i :: 1 <= i < |pairs| ==> pairs[i] == pairs[1..][i - 1];
      assert r.Some? ==> exists i :: 0 <= i < |pairs| && pairs[i] == (name, r.value) by {
        if r.Some? {
          var i :| 0 <= i < |pairs[1..]| && pairs[1..][i] == (name, r.value);
          assert pairs[i + 1] == (name, r.value);
        }
      }
      r
  }

  /** The first pair of a name wins, whatever follows it. */
  lemma {:induction false} LookupFirst(pairs: seq<(string, string)>, name: string, i: nat)
    requires i < |pairs| && pairs[i].0 == name
    requires forall j :: 0 <= j < i ==> pairs[j].0 != name
    ensures Lookup(pairs, name) == Some(pairs[i].1)
    decreases i
  {
    if i > 0 {
      assert forall j :: 0 <= j < i - 1 ==> pairs[1..][j] == pairs[j + 1];
      LookupFirst(pairs[1..], name, i - 1);
    }
  }

  /** `new URLSearchParams(init).get(name)`: a leading `?` is dropped, the rest parsed as UTF-8 form data. */
  function SearchParamsGet(init: string, name: string): (r: Option<string>)
    ensures init == "" || init == "?" ==> r.None?
  {
    var query := if |init| > 0 && init[0] == '?' then init[1..] else init;
    Lookup(ParseForm(Unicode.Encode(query)), name)
  }

  /** The query of a URL: what follows the first `?`, up to a `#`. */
  function QueryOf(url: string): string {
    if '?' !in url then []
    else
      var rest := url[IndexOf(url, '?') + 1..];
      if '#' in rest then rest[..IndexOf(rest, '#')] else rest
  }

  /** A form-urlencoded name or value written as text. */
  function FormDecodeText(s: string): string {
    FormDecode(Unicode.Encode(s))
  }

  lemma {:induction false} SubstituteAppend<T>(a: seq<T>, b: seq<T>, x: T, y: T)
    ensures Substitute(a + b, x, y) == Substitute(a, x, y) + Substitute(b, x, y)
  {
    var l, r := Substitute(a + b, x, y), Substitute(a, x, y) + Substitute(b, x, y);
    assert |l| == |r|;
    forall i | 0 <= i < |l| ensures l[i] == r[i] {
      if i < |a| { assert (a + b)[i] == a[i]; } else { assert (a + b)[i] == b[i - |a|]; }
    }
  }

  lemma SubstituteAbsent<T>(s: seq<T>, x: T, y: T)
    requires x !in s
    ensures Substitute(s, x, y) == s
  {
    assert forall i :: 0 <= i < |s| ==> s[i] != x;
  }

  /** Replacing `+` by a space commutes with UTF-8 encoding, since both are single ASCII octets. */
  lemma {:induction false} SubstituteEncode(s: string)
    ensures Substitute(Unicode.Encode(s), 0x2B, 0x20) == Unicode.Encode(Substitute(s, '+', ' '))
    decreases |s|
  {
    if s != [] {
      var e := Unicode.EncodeChar(s[0]);
      SubstituteAppend(e, Unicode.Encode(s[1..]), 0x2B, 0x20);
      if s[0] == '+' {
        assert Substitute(e, 0x2B, 0x20) == [0x20] == Unicode.EncodeChar(' ');
      } else {
        assert 0x2B !in e;
        SubstituteAbsent(e, 0x2B, 0x20);
      }
      SubstituteEncode(s[1..]);
      assert Substitute(s, '+', ' ') == [Substitute(s, '+', ' ')[0]] + Substitute(s[1..], '+', ' ');
    }
  }

  /**
   * Form decoding of text without `%`: every `+` becomes a space and nothing
   * else changes.
   */
  lemma FormDecodePlus(s: string)
    requires '%' !in s
    ensures FormDecodeText(s) == Substitute(s, '+', ' ')
  {
    var t := Substitute(s, '+', ' ');
    SubstituteEncode(s);
    assert '%' !in t;
    Unicode.AsciiByteIn(t, '%');
    Unicode.DecodeEncode(t);
  }

  /** Text without `+` or `%` is its own form decoding. */
  lemma FormDecodePlain(s: string)
    requires '%' !in s && '+' !in s
    ensures FormDecodeText(s) == s
  {
    FormDecodePlus(s);
    SubstituteAbsent(s, '+', ' ');
  }

  /** The octets of one escape "%XY". */
  lemma EncodeEscapeByte(b: Byte)
    ensures Unicode.Encode(EscapeByte(b)) == [0x25, HexDigit(b / 16) as int, HexDigit(b % 16) as int]
  {
    var e := EscapeByte(b);
    assert e == [e[0]] + [e[1]] + [e[2]];
    Unicode.EncodeAppend([e[0]] + [e[1]], [e[2]]);
    Unicode.EncodeAppend([e[0]], [e[1]]);
  }

  /** Percent-decoding reads one escape back as its octet. */
  lemma PercentDecodeEscape(b: Byte, tail: seq<Byte>)
    ensures PercentDecode(Unicode.Encode(EscapeByte(b)) + tail) == [b] + PercentDecode(tail)
  {
    EncodeEscapeByte(b);
    HexValueDigit(b / 16);
    HexValueDigit(b % 16);
    PercentDecodeHex(HexDigit(b / 16) as int, HexDigit(b % 16) as int, tail);
    assert (b / 16) * 16 + b % 16 == b;
  }

  /** An escape of two hexadecimal digits decodes to the octet they write. */
  lemma PercentDecodeHex(h: Byte, l: Byte, tail: seq<Byte>)
    requires HexValue(h as char).Some? && HexValue(l as char).Some?
    ensures PercentDecode([0x25, h, l] + tail)
         == [HexValue(h as char).value * 16 + HexValue(l as char).value] + PercentDecode(tail)
  {
    var x := [0x25, h, l] + tail;
    assert x[1] == h && x[2] == l && x[3..] == tail;
  }

  lemma {:induction false} PercentDecodeEscapes(bs: seq<Byte>, rest: seq<Byte>)
    ensures PercentDecode(Unicode.Encode(EscapeBytes(bs)) + rest) == bs + PercentDecode(rest)
    decreases |bs|
  {
    if bs != [] {
      var e, more := EscapeByte(bs[0]), EscapeBytes(bs[1..]);
      var tail := Unicode.Encode(more) + rest;
      Unfold(bs);
      assert EscapeBytes(bs) == e + more;
      Unicode.EncodeAppend(e, more);
      Regroup(Unicode.Encode(e), Unicode.Encode(more), rest);
      PercentDecodeEscape(bs[0], tail);
      PercentDecodeEscapes(bs[1..], rest);
      Regroup([bs[0]], bs[1..], PercentDecode(rest));
    } else {
      assert Unicode.Encode([]) + rest == rest;
    }
  }

  lemma PercentDecodeUriChar(c: char, rest: seq<Byte>)
    ensures PercentDecode(Unicode.Encode(EncodeUriChar(c)) + rest) == Unicode.EncodeChar(c) + PercentDecode(rest)
  {
    if IsUnreserved(c) {
      assert Unicode.Encode([c]) == [c as int];
      assert ([c as int] + rest)[1..] == rest;
    } else {
      PercentDecodeEscapes(Unicode.EncodeChar(c), rest);
    }
  }

  lemma {:induction false} PercentDecodeEncoded(s: string)
    ensures PercentDecode(Unicode.Encode(EncodeUriComponent(s))) == Unicode.Encode(s)
    decreases |s|
  {
    if s != [] {
      Unicode.EncodeAppend(EncodeUriChar(s[0]), EncodeUriComponent(s[1..]));
      PercentDecodeUriChar(s[0], Unicode.Encode(EncodeUriComponent(s[1..])));
      PercentDecodeEncoded(s[1..]);
    }
  }

  /** Form decoding undoes encodeURIComponent, as it does decodeURIComponent. */
  lemma FormDecodeEncoded(s: string)
    ensures FormDecodeText(EncodeUriComponent(s)) == s
  {
    var enc := EncodeUriComponent(s);
    assert '+' !in enc;
    Unicode.AsciiByteIn(enc, '+');
    SubstituteAbsent(Unicode.Encode(enc), 0x2B, 0x20);
    PercentDecodeEncoded(s);
    Unicode.DecodeEncode(s);
  }

  /** `name=value` pairs joined with `&`, the way the handlers write query strings by concatenation. */
  function Query(pairs: seq<(string, string)>): string
    decreases |pairs|
  {
    if pairs == [] then []
    else if |pairs| == 1 then pairs[0].0 + "=" + pairs[0].1
    else pairs[0].0 + "=" + pairs[0].1 + "&" + Query(pairs[1..])
  }

  /** A name that reads back as itself and cannot end a pair early. */
  predicate PlainName(n: string) {
    '=' !in n && '&' !in n && '+' !in n && '%' !in n && '?' !in n
  }

  /** Pairs that a form parser splits exactly where they were joined. */
  predicate Separable(pairs: seq<(string, string)>) {
    forall i :: 0 <= i < |pairs| ==> PlainName(pairs[i].0) && '&' !in pairs[i].1
  }

  /** Each pair's value as the form parser reads it back. */
  function DecodedPairs(pairs: seq<(string, string)>): (r: seq<(string, string)>)
    ensures |r| == |pairs|
    decreases |pairs|
  {
    if pairs == [] then [] else [(pairs[0].0, FormDecodeText(pairs[0].1))] + DecodedPairs(pairs[1..])
  }

  lemma {:induction false} IndexOfAfter<T>(a: seq<T>, x: T, b: seq<T>)
    requires x !in a
    ensures IndexOf(a + [x] + b, x) == |a|
    decreases |a|
  {
    var s := a + [x] + b;
    if a != [] {
      assert s[0] == a[0] && s[1..] == a[1..] + [x] + b;
      IndexOfAfter(a[1..], x, b);
    }
  }

  lemma SplitAfter(a: seq<Byte>, b: seq<Byte>)
    requires 0x26 !in a
    ensures Split(a + [0x26] + b, 0x26) == [a] + Split(b, 0x26)
  {
    var s := a + [0x26] + b;
    IndexOfAfter(a, 0x26, b);
    assert s[..|a|] == a && s[|a| + 1..] == b;
  }

  lemma EncodePairText(name: string, value: string)
    ensures Unicode.Encode(name + "=" + value) == Unicode.Encode(name) + [0x3D] + Unicode.Encode(value)
  {
    Unicode.EncodeAppend(name + "=", value);
    Unicode.EncodeAppend(name, "=");
    assert Unicode.Encode("=") == [0x3D];
  }

  /** The octets of `name=value`, and how the parser reads them. */
  lemma ParsePairText(name: string, value: string)
    requires PlainName(name)
    ensures Unicode.Encode(name + "=" + value) == Unicode.Encode(name) + [0x3D] + Unicode.Encode(value)
    ensures ParsePair(Unicode.Encode(name + "=" + value)) == (name, FormDecodeText(value))
  {
    EncodePairText(name, value);
    var a, b := Unicode.Encode(name), Unicode.Encode(value);
    Unicode.AsciiByteIn(name, '=');
    IndexOfAfter(a, 0x3D, b);
    var x := a + [0x3D] + b;
    assert x[..|a|] == a && x[|a| + 1..] == b;
    FormDecodePlain(name);
  }

  /** The octets of the first pair, then `&`, then the octets of the other pairs. */
  lemma EncodeQuery(pairs: seq<(string, string)>)
    requires |pairs| >= 2
    ensures Unicode.Encode(Query(pairs))
         == Unicode.Encode(pairs[0].0 + "=" + pairs[0].1) + [0x26] + Unicode.Encode(Query(pairs[1..]))
  {
    var p := pairs[0].0 + "=" + pairs[0].1;
    var rest := Query(pairs[1..]);
    assert Query(pairs) == p + "&" + rest;
    Unicode.EncodeAppend(p + "&", rest);
    Unicode.EncodeAppend(p, "&");
    assert Unicode.Encode("&") == [0x26];
  }

  lemma NoAmpersand(name: string, value: string)
    requires '&' !in name && '&' !in value
    ensures 0x26 !in Unicode.Encode(name + "=" + value)
  {
    Unicode.AsciiByteIn(name + "=" + value, '&');
    assert '&' !in name + "=" + value;
  }

  /** Parsing joined pairs gives the pairs back, each value form-decoded. */
  lemma {:induction false} ParseQuery(pairs: seq<(string, string)>)
    requires Separable(pairs)
    ensures ParseForm(Unicode.Encode(Query(pairs))) == DecodedPairs(pairs)
    decreases |pairs|
  {
    if pairs == [] {
      assert Split([], 0x26) == [[]];
    } else {
      var n, v := pairs[0].0, pairs[0].1;
      ParsePairText(n, v);
      NoAmpersand(n, v);
      var x := Unicode.Encode(n + "=" + v);
      assert x != [];
      if |pairs| == 1 {
        assert ParsePairs([x]) == [ParsePair(x)] + ParsePairs([]);
      } else {
        var rest := pairs[1..];
        assert Separable(rest) by { assert forall i :: 0 <= i < |rest| ==> rest[i] == pairs[i + 1]; }
        var y := Unicode.Encode(Query(rest));
        EncodeQuery(pairs);
        SplitAfter(x, y);
        ParseQuery(rest);
        assert ([x] + Split(y, 0x26))[1..] == Split(y, 0x26);
      }
    }
  }

  /** URLSearchParams.get on joined pairs finds the first pair of that name, value form-decoded. */
  lemma GetFromQuery(pairs: seq<(string, string)>, name: string)
    requires Separable(pairs)
    ensures SearchParamsGet(Query(pairs), name) == Lookup(DecodedPairs(pairs), name)
  {
    ParseQuery(pairs);
    var q := Query(pairs);
    if pairs != [] {
      var n := pairs[0].0;
      assert q[0] == (if |n| > 0 then n[0] else '=');
    }
  }

  /**
   * `new URLSearchParams("name=" + w).get("name")` is `w` read as form data:
   * the first pair, as `w` has no `&`.
   */
  lemma GetSinglePair(name: string, w: string)
    requires PlainName(name) && '&' !in w
    ensures SearchParamsGet(name + "=" + w, name) == Some(FormDecodeText(w))
  {
    var pairs := [(name, w)];
    assert Separable(pairs);
    assert Query(pairs) == name + "=" + w;
    GetFromQuery(pairs, name);
  }

  /** The query of `prefix?q` is `q` when the prefix has no `?` and `q` has no `#`. */
  lemma QueryOfUrl(prefix: string, q: string)
    requires '?' !in prefix && '#' !in q
    ensures QueryOf(prefix + "?" + q) == q
  {
    IndexOfAfter(prefix, '?', q);
    var url := prefix + "?" + q;
    assert url == prefix + ['?'] + q;
    assert url[|prefix| + 1..] == q;
  }

  /** A character that is not a delimiter and occurs in no name or value does not occur in the joined query. */
  lemma {:induction false} QueryExcludes(pairs: seq<(string, string)>, c: char)
    requires c != '=' && c != '&'
    requires forall i :: 0 <= i < |pairs| ==> c !in pairs[i].0 && c !in pairs[i].1
    ensures c !in Query(pairs)
    decreases |pairs|
  {
    if |pairs| > 1 {
      QueryExcludes(pairs[1..], c);
    }
  }

  /** Joining a first pair in front of further pairs. */
  lemma QueryCons(name: string, value: string, rest: seq<(string, string)>)
    requires rest != []
    ensures Query([(name, value)] + rest) == name + "=" + value + "&" + Query(rest)
  {
    assert ([(name, value)] + rest)[1..] == rest;
  }

  /** `get` on joined pairs answers the form-decoded value of the first pair with that name. */
  lemma GetAt(pairs: seq<(string, string)>, name: string, i: nat)
    requires Separable(pairs)
    requires i < |pairs| && pairs[i].0 == name
    requires forall j :: 0 <= j < i ==> pairs[j].0 != name
    ensures SearchParamsGet(Query(pairs), name) == Some(FormDecodeText(pairs[i].1))
  {
    var decoded := DecodedPairs(pairs);
    DecodedPairsAt(pairs);
    GetFromQuery(pairs, name);
    LookupFirst(decoded, name, i);
  }

  lemma {:induction false} DecodedPairsAt(pairs: seq<(string, string)>)
    ensures forall i :: 0 <= i < |pairs| ==> DecodedPairs(pairs)[i] == (pairs[i].0, FormDecodeText(pairs[i].1))
    decreases |pairs|
  {
    if pairs != [] {
      DecodedPairsAt(pairs[1..]);
    }
  }

  /** Pairs with distinct names: `get` of each name answers that pair's form-decoded value. */
  lemma GetDistinct(pairs: seq<(string, string)>, i: nat)
    requires Separable(pairs) && i < |pairs|
    requires forall j, k :: 0 <= j < k < |pairs| ==> pairs[j].0 != pairs[k].0
    ensures SearchParamsGet(Query(pairs), pairs[i].0) == Some(FormDecodeText(pairs[i].1))
  {
    GetAt(pairs, pairs[i].0, i);
  }

  /** Percent-encoded text holds none of the query delimiters, nor `+`, space or `?`. */
  lemma EncodedInert(s: string)
    ensures var e := EncodeUriComponent(s);
      '&' !in e && '=' !in e && '+' !in e && '#' !in e && ' ' !in e && '?' !in e
  {
    var e := EncodeUriComponent(s);
    forall i | 0 <= i < |e|
      ensures e[i] != '&' && e[i] != '=' && e[i] != '+' && e[i] != '#' && e[i] != ' ' && e[i] != '?'
    {
      InertChar(e[i]);
    }
  }

  lemma InertChar(c: char)
    requires c == '%' || IsUnreserved(c)
    ensures c != '&' && c != '=' && c != '+' && c != '#' && c != ' ' && c != '?'
  {
  }
}
