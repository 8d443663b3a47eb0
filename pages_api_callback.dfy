/**
 * pages/api/callback.js: the OAuth redirect target of the pages router. It
 * takes the number out of `state` with the unanchored pattern
 * `/whatsapp=([^&]+)/`, percent-decodes it, exchanges the code and upserts
 * the tokens through lib/db.js.
 */
module PagesApiCallback {

  import opened Js
  import opened Uri
  import opened Http
  import Db

  const Key: string := "whatsapp="
  const MissingNumber: string := "Missing WhatsApp number"
  const MissingCode: string := "Missing code"
  const ServerError: string := "Internal server error"

  lemma KeyFacts()
    ensures |Key| == 9 && Key[8] == '=' && '=' !in Key[..8]
  {
  }

  /** The pattern can match at `j`: `whatsapp=` there, then at least one character other than `&`. */
  predicate MatchAt(s: string, j: nat) {
    j + |Key| < |s| && s[j..j + |Key|] == Key && s[j + |Key|] != '&'
  }

  /** The leftmost position from `i` on where the pattern matches, as the regular expression search finds it. */
  function FirstMatch(s: string, i: nat): (r: Option<nat>)
    ensures r.Some? ==> i <= r.value && MatchAt(s, r.value) && forall k :: i <= k < r.value ==> !MatchAt(s, k)
    ensures r.None? ==> forall k :: i <= k ==> !MatchAt(s, k)
    decreases |s| - i
  {
    if i + |Key| >= |s| then None
    else if MatchAt(s, i) then Some(i)
    else FirstMatch(s, i + 1)
  }

  /** `[^&]+`, greedy: the longest run of characters before the first `&`. */
  function Run(t: string): (r: string)
    ensures '&' !in r && |r| <= |t| && r == t[..|r|]
    ensures |r| < |t| ==> t[|r|] == '&'
  {
    if '&' in t then t[..IndexOf(t, '&')] else t
  }

  /** `state?.match(/whatsapp=([^&]+)/)?.[1]`: the capture group of the leftmost match. */
  function Capture(state: string): (r: Option<string>)
    ensures r.Some? ==> r.value != [] && '&' !in r.value
    ensures r.None? <==> forall k :: !MatchAt(state, k)
  {
    match FirstMatch(state, 0)
    case None => None
    case Some(j) => Some(Run(state[j + |Key|..]))
  }

  /** The number as the handler reads it. */
  datatype Decoded = Absent | Malformed | Found(value: string)

  /** No state or no match is `null`; a match is decoded by decodeURIComponent, which throws on a bad escape. */
  function DecodeState(state: Option<string>): (r: Decoded)
    ensures r.Found? ==>
      state.Some? && Capture(state.value).Some? && DecodeUriComponent(Capture(state.value).value) == Some(r.value)
    ensures r == Absent <==> state.None? || Capture(state.value).None?
    ensures r == Malformed <==>
      state.Some? && Capture(state.value).Some? && DecodeUriComponent(Capture(state.value).value).None?
    ensures state.Some? && Capture(state.value).Some? && DecodeUriComponent(Capture(state.value).value).Some? ==>
      r == Found(DecodeUriComponent(Capture(state.value).value).value)
  {
    if state.None? then Absent
    else match Capture(state.value)
      case None => Absent
      case Some(c) => match DecodeUriComponent(c)
        case None => Malformed
        case Some(w) => Found(w)
  }

  /** A text without `=` holds no match at all. */
  lemma NoEqualsNoMatch(s: string)
    requires '=' !in s
    ensures Capture(s) == None
  {
    KeyFacts();
  }

  /**
   * Whatever stands before `whatsapp=`, as long as it has no `=`, is skipped:
   * the match is not anchored, and what it captures is the run after it.
   */
  lemma CaptureAfter(prefix: string, value: string)
    requires '=' !in prefix && value != [] && value[0] != '&'
    ensures Capture(prefix + Key + value) == Some(Run(value))
  {
    KeyFacts();
    var s := prefix + Key + value;
    var j := |prefix|;
    assert s[j..j + |Key|] == Key;
    assert s[j + |Key|] == value[0];
    assert MatchAt(s, j);
    assert forall k: nat :: k < j ==> !MatchAt(s, k);
    var m := FirstMatch(s, 0);
    assert m == Some(j);
    assert s[j + |Key|..] == value;
  }

  /**
   * A state `prefix` + `whatsapp=` + a value without `&` or `%` yields the
   * value itself: `+` stays `+` (no form decoding here).
   */
  lemma DecodePlainValue(prefix: string, value: string)
    requires '=' !in prefix && value != [] && '&' !in value && '%' !in value
    ensures DecodeState(Some(prefix + Key + value)) == Found(value)
  {
    CaptureAfter(prefix, value);
    assert Run(value) == value;
  }

  /**
   * A value whose first `%` starts an escape that cannot be decoded (no two
   * hexadecimal digits, a continuation octet, or no UTF-8 lead octet) makes
   * decodeURIComponent throw: `whatsapp=%`, `whatsapp=12%G1`, `whatsapp=%80`.
   */
  lemma BadEscapeThrows(prefix: string, plain: string, bad: string)
    requires '=' !in prefix && '&' !in plain && '&' !in bad && '%' !in plain && BadEscape(bad)
    ensures DecodeState(Some(prefix + Key + (plain + bad))) == Malformed
  {
    var value := plain + bad;
    assert value[0] != '&' by { if plain == [] { assert value[0] == bad[0]; } else { assert value[0] == plain[0]; } }
    assert '&' !in value;
    CaptureAfter(prefix, value);
    assert Run(value) == value;
    DecodeBadEscape(plain, bad);
  }

  /** What one callback answers, and the number and tokens it stores, if any. */
  datatype Outcome = Outcome(response: Response, stored: Option<(string, Db.TokenResponse)>)

  /**
   * The handler's decision. `token` is getToken's result, None when it threw;
   * a token whose expiry is an invalid date makes storeTokenForUser throw
   * inside the try block, which is answered like a failed exchange. The
   * number is checked before the code; a bad escape throws before either
   * check, outside the try block.
   */
  function Callback(code: Option<string>, state: Option<string>, token: Option<Db.TokenResponse>, now: int): (o: Outcome)
    ensures o.stored.Some? <==> o.response == JsonSuccess
    ensures o.response == Unhandled <==> DecodeState(state) == Malformed
    ensures o.response == JsonError(400, MissingNumber)
        <==> DecodeState(state) == Absent || DecodeState(state) == Found("")
    ensures o.response == JsonError(400, MissingCode)
        <==> DecodeState(state).Found? && DecodeState(state).value != "" && (code.None? || code == Some(""))
    ensures o.response == JsonError(500, ServerError)
        <==> DecodeState(state).Found? && DecodeState(state).value != "" && code.Some? && code != Some("")
             && (token.None? || Db.ExpiresAt(token.value, now).None?)
    ensures o.response == JsonSuccess
        <==> DecodeState(state).Found? && DecodeState(state).value != "" && code.Some? && code != Some("")
             && token.Some? && Db.ExpiresAt(token.value, now).Some?
    ensures o.stored.Some? ==> token.Some? && o.stored.value == (DecodeState(state).value, token.value)
  {
    match DecodeState(state)
    case Malformed => Outcome(Unhandled, None)
    case Absent => Outcome(JsonError(400, MissingNumber), None)
    case Found(w) =>
      if w == "" then Outcome(JsonError(400, MissingNumber), None)
      else if code.None? || code.value == "" then Outcome(JsonError(400, MissingCode), None)
      else if token.None? || Db.ExpiresAt(token.value, now).None? then Outcome(JsonError(500, ServerError), None)
      else Outcome(JsonSuccess, Some((w, token.value)))
  }

  /** With neither number nor code, the number is what the answer complains about. */
  lemma NumberCheckedFirst(state: Option<string>, token: Option<Db.TokenResponse>, now: int)
    requires DecodeState(state) == Absent
    ensures Callback(None, state, token, now).response == JsonError(400, MissingNumber)
  {
  }

  /**
   * The handler: decides as Callback does; when it stores, the user store
   * becomes the upsert of the number and tokens at time `now`, and is
   * otherwise unchanged.
   */
  method Handle(users: Db.UserStore, code: Option<string>, state: Option<string>,
                token: Option<Db.TokenResponse>, now: int) returns (r: Response)
    requires users.Valid()
    modifies users
    ensures users.Valid()
    ensures r == Callback(code, state, token, now).response
    ensures var o := Callback(code, state, token, now);
      users.users == if o.stored.Some? then Db.Upsert(old(users.users), o.stored.value.0, o.stored.value.1, now).value
                     else old(users.users)
  {
    var decoded := DecodeState(state);
    if decoded.Malformed? {
      return Unhandled;
    }
    if decoded.Absent? || decoded.value == "" {
      return JsonError(400, MissingNumber);
    }
    if code.None? || code.value == "" {
      return JsonError(400, MissingCode);
    }
    if token.None? {
      return JsonError(500, ServerError);
    }
    var user := users.StoreTokenForUser(decoded.value, token.value, now);
    if user.None? {
      return JsonError(500, ServerError);
    }
    r := JsonSuccess;
  }
}
