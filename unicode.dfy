/**
 * Unicode encodings shared by the URI functions and the reply length limit:
 * UTF-8 encoding of a string, the WHATWG UTF-8 decoder (replacement mode), and
 * the UTF-16 code units that JavaScript string lengths count.
 */
module Unicode {

  import Js

  /** One octet. */
  type Byte = b: int | 0 <= b < 0x100

  /** One UTF-16 code unit, the element of a JavaScript string. */
  type CodeUnit = u: int | 0 <= u < 0x1_0000

  const Replacement: char := '\U{FFFD}'

  predicate IsScalarValue(n: int) {
    0 <= n < 0xD800 || 0xE000 <= n < 0x11_0000
  }

  predicate IsContinuation(b: Byte) {
    0x80 <= b < 0xC0
  }

  /** The UTF-8 encoding of one scalar value (Unicode section 3.9, table 3-6). */
  function EncodeChar(c: char): (bs: seq<Byte>)
    ensures 1 <= |bs| <= 4
    ensures forall i :: 0 <= i < |bs| ==> (bs[i] < 0x80 <==> c as int < 0x80)
    ensures c as int < 0x80 ==> bs == [c as int]
    ensures forall i :: 1 <= i < |bs| ==> IsContinuation(bs[i])
  {
    var x := c as int;
    if x < 0x80 then [x]
    else if x < 0x800 then [0xC0 + x / 64, 0x80 + x % 64]
    else if x < 0x1_0000 then [0xE0 + x / 4096, 0x80 + x / 64 % 64, 0x80 + x % 64]
    else [0xF0 + x / 262144, 0x80 + x / 4096 % 64, 0x80 + x / 64 % 64, 0x80 + x % 64]
  }

  /** The UTF-8 encoding of a string. */
  function Encode(s: string): (bs: seq<Byte>)
    ensures |bs| >= |s|
    decreases |s|
  {
    if s == [] then [] else EncodeChar(s[0]) + Encode(s[1..])
  }

  lemma {:induction false} EncodeAppend(a: string, b: string)
    ensures Encode(a + b) == Encode(a) + Encode(b)
    decreases |a|
  {
    if a != [] {
      assert (a + b)[0] == a[0] && (a + b)[1..] == a[1..] + b;
      EncodeAppend(a[1..], b);
    } else {
      assert a + b == b;
    }
  }

  /** An ASCII character occurs in a string exactly when its byte occurs in the string's UTF-8 encoding. */
  lemma {:induction false} AsciiByteIn(s: string, c: char)
    requires c as int < 0x80
    ensures (c as int in Encode(s)) <==> c in s
    decreases |s|
  {
    if s != [] {
      AsciiByteIn(s[1..], c);
      var e := EncodeChar(s[0]);
      assert c as int in e <==> c == s[0];
      assert Encode(s) == e + Encode(s[1..]);
      assert c in s <==> c == s[0] || c in s[1..];
    }
  }

  /** The value carried by a 2-, 3- or 4-byte sequence, whatever its lead byte's class. */
  function SequenceValue(bs: seq<Byte>): int
    requires 2 <= |bs| <= 4
  {
    var b: seq<int> := bs;
    if |b| == 2 then (b[0] - 0xC0) * 64 + (b[1] - 0x80)
    else if |b| == 3 then (b[0] - 0xE0) * 4096 + (b[1] - 0x80) * 64 + (b[2] - 0x80)
    else (b[0] - 0xF0) * 262144 + (b[1] - 0x80) * 4096 + (b[2] - 0x80) * 64 + (b[3] - 0x80)
  }

  /** The number of leading one bits of a byte, capped at 5: a lead byte's announced sequence length. */
  function LeadingOnes(b: Byte): (n: nat)
    ensures n <= 5
  {
    if b < 0x80 then 0 else if b < 0xC0 then 1 else if b < 0xE0 then 2
    else if b < 0xF0 then 3 else if b < 0xF8 then 4 else 5
  }

  /** Smallest scalar value that needs `n` bytes: anything below is an overlong form. */
  function MinValue(n: int): int
    requires 2 <= n <= 4
  {
    if n == 2 then 0x80 else if n == 3 then 0x800 else 0x1_0000
  }

  /** Decoding the UTF-8 encoding of a non-ASCII character gives the character back. */
  lemma SequenceValueEncode(c: char)
    requires c as int >= 0x80
    ensures |EncodeChar(c)| >= 2
    ensures SequenceValue(EncodeChar(c)) == c as int
    ensures MinValue(|EncodeChar(c)|) <= c as int
    ensures LeadingOnes(EncodeChar(c)[0]) == |EncodeChar(c)|
  {
    var x := c as int;
    var q1, r1 := x / 64, x % 64;
    assert x == q1 * 64 + r1;
    var q2, r2 := q1 / 64, q1 % 64;
    assert q1 == q2 * 64 + r2;
    var q3, r3 := q2 / 64, q2 % 64;
    assert q2 == q3 * 64 + r3;
    assert x / 4096 == q2;
    assert x / 262144 == q3;
  }

  /**
   * What a lead byte announces in the WHATWG UTF-8 decoder: how many
   * continuation bytes follow and the bounds on the first of them.
   */
  datatype Lead = Lead(needed: nat, lower: Byte, upper: Byte)

  function LeadOf(b: Byte): (r: Js.Option<Lead>)
    ensures r.Some? ==> 1 <= r.value.needed <= 3 && 0x80 <= r.value.lower <= r.value.upper < 0xC0
  {
    if 0xC2 <= b <= 0xDF then Js.Some(Lead(1, 0x80, 0xBF))
    else if 0xE0 <= b <= 0xEF then Js.Some(Lead(2, if b == 0xE0 then 0xA0 else 0x80, if b == 0xED then 0x9F else 0xBF))
    else if 0xF0 <= b <= 0xF4 then Js.Some(Lead(3, if b == 0xF0 then 0x90 else 0x80, if b == 0xF4 then 0x8F else 0xBF))
    else Js.None
  }

  /**
   * How many bytes at the front of `rest` the decoder accepts as continuation
   * bytes after a lead byte (at most `lead.needed`): the first must lie in
   * [lower, upper], the others in [0x80, 0xBF].
   */
  function Accepted(rest: seq<Byte>, lead: Lead, i: nat): (k: nat)
    requires 0x80 <= lead.lower && lead.upper < 0xC0
    requires i <= lead.needed && i <= |rest|
    ensures i <= k <= lead.needed && k <= |rest|
    ensures forall j :: i <= j < k ==> IsContinuation(rest[j]) && (j == 0 ==> lead.lower <= rest[j] <= lead.upper)
    decreases lead.needed - i
  {
    if i == lead.needed || i == |rest| then i
    else if (if i == 0 then lead.lower <= rest[0] <= lead.upper else IsContinuation(rest[i])) then Accepted(rest, lead, i + 1)
    else i
  }

  /** A complete sequence accepted by the decoder carries a scalar value of the right size. */
  lemma AcceptedIsScalar(bs: seq<Byte>, lead: Lead)
    requires |bs| >= 2 && LeadOf(bs[0]) == Js.Some(lead) && |bs| == lead.needed + 1
    requires forall j :: 1 <= j < |bs| ==> IsContinuation(bs[j])
    requires lead.lower <= bs[1] <= lead.upper
    ensures IsScalarValue(SequenceValue(bs)) && SequenceValue(bs) >= MinValue(|bs|)
  {
  }

  /**
   * The UTF-8 decoder of the Encoding Standard in replacement mode ("UTF-8
   * decode without BOM"): each malformed sequence, and a truncated one at the
   * end, becomes U+FFFD; the byte that broke a sequence is decoded afresh.
   */
  function Decode(bs: seq<Byte>): string
    decreases |bs|
  {
    if bs == [] then []
    else if bs[0] < 0x80 then [bs[0] as char] + Decode(bs[1..])
    else match LeadOf(bs[0])
      case None => [Replacement] + Decode(bs[1..])
      case Some(lead) =>
        var k := Accepted(bs[1..], lead, 0);
        if k == lead.needed then
          AcceptedIsScalar(bs[..k + 1], lead);
          [SequenceValue(bs[..k + 1]) as char] + Decode(bs[k + 1..])
        else [Replacement] + Decode(bs[k + 1..])
  }

  /** Decoding the encoding of one character consumes exactly that encoding. */
  lemma DecodeEncodeChar(c: char, rest: seq<Byte>)
    ensures Decode(EncodeChar(c) + rest) == [c] + Decode(rest)
  {
    var e := EncodeChar(c);
    var bs := e + rest;
    if c as int >= 0x80 {
      SequenceValueEncode(c);
      var x := c as int;
      assert bs[0] == e[0];
      var lead := LeadOf(e[0]);
      assert lead.Some? && lead.value.needed == |e| - 1 && lead.value.lower <= e[1] <= lead.value.upper by {
        var q1 := x / 64;
        assert x == q1 * 64 + x % 64;
        if |e| == 3 {
          assert e[0] == 0xE0 ==> x < 0x1000;
          assert e[0] == 0xED ==> 0xD000 <= x < 0xD800;
        } else if |e| == 4 {
          assert e[0] == 0xF0 ==> x < 0x4_0000;
          assert e[0] == 0xF4 ==> 0x10_0000 <= x;
        }
      }
      AcceptedAll(bs[1..], lead.value, 0, |e| - 1);
      assert bs[..|e|] == e;
      assert bs[|e|..] == rest;
    } else {
      assert bs[1..] == rest;
    }
  }

  /** The decoder accepts continuation bytes that are all in range. */
  lemma {:induction false} AcceptedAll(rest: seq<Byte>, lead: Lead, i: nat, n: nat)
    requires 0x80 <= lead.lower && lead.upper < 0xC0
    requires i <= n == lead.needed <= |rest|
    requires forall j :: i <= j < n ==> IsContinuation(rest[j]) && (j == 0 ==> lead.lower <= rest[j] <= lead.upper)
    ensures Accepted(rest, lead, i) == n
    decreases n - i
  {
    if i < n {
      AcceptedAll(rest, lead, i + 1, n);
    }
  }

  /** UTF-8 decoding undoes UTF-8 encoding. */
  lemma {:induction false} DecodeEncode(s: string)
    ensures Decode(Encode(s)) == s
    decreases |s|
  {
    if s != [] {
      DecodeEncodeChar(s[0], Encode(s[1..]));
      DecodeEncode(s[1..]);
    }
  }

  /** The UTF-16 encoding of one scalar value: one unit, or a surrogate pair. */
  function Utf16Char(c: char): (us: seq<CodeUnit>)
    ensures |us| == (if c as int < 0x1_0000 then 1 else 2)
    ensures |us| == 2 ==> 0xD800 <= us[0] < 0xDC00 && 0xDC00 <= us[1] < 0xE000
    ensures |us| == 1 ==> us[0] == c as int
  {
    var x := c as int;
    if x < 0x1_0000 then [x] else [0xD800 + (x - 0x1_0000) / 1024, 0xDC00 + (x - 0x1_0000) % 1024]
  }

  /** A string as the sequence of UTF-16 code units that JavaScript's `length` and `slice` count. */
  function Utf16(s: string): (us: seq<CodeUnit>)
    ensures |us| >= |s|
    decreases |s|
  {
    if s == [] then [] else Utf16Char(s[0]) + Utf16(s[1..])
  }

  lemma {:induction false} Utf16Append(a: string, b: string)
    ensures Utf16(a + b) == Utf16(a) + Utf16(b)
    decreases |a|
  {
    if a != [] {
      assert (a + b)[0] == a[0] && (a + b)[1..] == a[1..] + b;
      Utf16Append(a[1..], b);
    } else {
      assert a + b == b;
    }
  }
}
