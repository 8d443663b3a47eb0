/**
 * The JavaScript values the handlers work with: `undefined`, the JSON/BSON
 * documents read from MongoDB and HTTP APIs, truthiness, and the number/string
 * conversions used in template literals.
 */
module Js {

  /** `None` stands for JavaScript's `undefined`: a missing query parameter or property. */
  datatype Option<+T> = None | Some(value: T)

  /**
   * A JSON/BSON value as stored in MongoDB or returned by an HTTP API.
   * Numbers are integers (floating point is not modelled); `Date` is a BSON
   * date holding milliseconds since the epoch.
   */
  datatype Value =
    | Null
    | Bool(b: bool)
    | Num(n: int)
    | Str(s: string)
    | Date(ms: int)
    | Arr(items: seq<Value>)
    | Obj(fields: map<string, Value>)

  /** ToBoolean (ECMA-262 section 7.1.2) on the values above: objects, arrays and dates are truthy. */
  predicate Truthy(v: Value) {
    match v
    case Null => false
    case Bool(b) => b
    case Num(n) => n != 0
    case Str(s) => s != []
    case _ => true
  }

  /** `!x` where `x` may be `undefined`. */
  predicate Falsy(x: Option<Value>) {
    x.None? || !Truthy(x.value)
  }

  /** `o[key]` on a plain object: the field's value, `undefined` when the object lacks it. */
  function Get<V>(o: map<string, V>, key: string): (r: Option<V>)
    ensures r.Some? <==> key in o
    ensures r.Some? ==> r.value == o[key]
  {
    if key in o then Some(o[key]) else None
  }

  /** The largest time value a `Date` holds, in milliseconds either side of the epoch, as ECMA-262 defines the time range. */
  const MaxTime: int := 8_640_000_000_000_000

  /** TimeClip of ECMA-262 on integers: a time beyond the range is an invalid date (None). */
  function TimeClip(t: int): (r: Option<int>)
    ensures r.Some? <==> -MaxTime <= t <= MaxTime
    ensures r.Some? ==> r.value == t
  {
    if -MaxTime <= t <= MaxTime then Some(t) else None
  }

  /** `x?.[key]`: `undefined` when `x` is `undefined`, `null`, not an object, or lacks the key. */
  function Prop(x: Option<Value>, key: string): (r: Option<Value>)
    ensures r.Some? <==> x.Some? && x.value.Obj? && key in x.value.fields
    ensures r.Some? ==> r.value == x.value.fields[key]
  {
    if x.Some? && x.value.Obj? && key in x.value.fields then Some(x.value.fields[key]) else None
  }

  /**
   * `x?.[0]`: the first element of an array, the property `"0"` of an
   * object, `undefined` for an empty array, an object without that property
   * and the other values. (A string's first character is left out: the
   * one caller reads its `score`, which a string does not have.)
   */
  function First(x: Option<Value>): (r: Option<Value>)
    ensures x.Some? && x.value.Arr? ==> (r.Some? <==> |x.value.items| > 0)
    ensures x.Some? && x.value.Arr? && r.Some? ==> r.value == x.value.items[0]
    ensures x.Some? && x.value.Obj? ==> r == Prop(x, "0")
    ensures x.None? || !(x.value.Arr? || x.value.Obj?) ==> r.None?
  {
    if x.Some? && x.value.Arr? && |x.value.items| > 0 then Some(x.value.items[0])
    else if x.Some? && x.value.Obj? then Prop(x, "0")
    else None
  }

  /** `${s}` for a string that may be `undefined`. */
  function Interpolate(s: Option<string>): (r: string)
    ensures s.Some? ==> r == s.value
    ensures s.None? ==> r == "undefined"
  {
    if s.Some? then s.value else "undefined"
  }

  predicate IsDigit(c: char) {
    '0' <= c <= '9'
  }

  predicate AllDigits(s: string) {
    forall i :: 0 <= i < |s| ==> IsDigit(s[i])
  }

  function DigitChar(d: nat): (c: char)
    requires d < 10
    ensures IsDigit(c) && c as int - '0' as int == d
  {
    ('0' as int + d) as char
  }

  /** `${n}` for a non-negative integer: its shortest decimal rendering. */
  function DecimalString(n: nat): (r: string)
    ensures |r| >= 1 && AllDigits(r)
    ensures r[0] == '0' ==> n == 0
    decreases n
  {
    if n < 10 then [DigitChar(n)] else DecimalString(n / 10) + [DigitChar(n % 10)]
  }

  /** The value of a string of decimal digits (leading zeros allowed). */
  function DigitsValue(s: string): nat
    requires AllDigits(s)
    decreases |s|
  {
    if s == [] then 0 else DigitsValue(s[..|s| - 1]) * 10 + (s[|s| - 1] as int - '0' as int)
  }

  /**
   * `Number(s)` for the string forms modelled here: the empty string is 0, a
   * run of decimal digits is its value, anything else is treated as NaN (None).
   */
  function ToNumber(s: string): (r: Option<nat>)
    ensures r.Some? <==> AllDigits(s)
    ensures s == [] ==> r == Some(0)
  {
    if AllDigits(s) then Some(DigitsValue(s)) else None
  }

  /** The index of the first occurrence of `x` in `s`. */
  function IndexOf<T(==)>(s: seq<T>, x: T): (i: nat)
    requires x in s
    ensures i < |s| && s[i] == x && x !in s[..i]
  {
    if s[0] == x then 0 else
      assert x in s[1..] by { var k :| 0 <= k < |s| && s[k] == x; assert s[1..][k - 1] == x; }
      var j := IndexOf(s[1..], x);
      assert s[..j + 1] == [s[0]] + s[1..][..j];
      j + 1
  }

  /** `s` with every `a` replaced by `b`. */
  function Substitute<T(==)>(s: seq<T>, a: T, b: T): (r: seq<T>)
    ensures |r| == |s|
    ensures forall i :: 0 <= i < |s| ==> r[i] == (if s[i] == a then b else s[i])
  {
    if s == [] then [] else [if s[0] == a then b else s[0]] + Substitute(s[1..], a, b)
  }
}
