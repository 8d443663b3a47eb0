/**
 * pages/api/login.js: redirects the browser to the WHOOP authorization URL,
 * the state being `user` followed by the digits of the number.
 */
module PagesApiLogin {

  import opened Js
  import opened Uri
  import opened Http
  import ApiLogin
  import Phone

  /** `.replace(/\D/g, '')`: every character other than 0-9 deleted, `+` included. */
  function Digits(s: string): (r: string)
    ensures |r| <= |s|
    ensures forall i :: 0 <= i < |r| ==> IsDigit(r[i])
    decreases |s|
  {
    if s == [] then []
    else if IsDigit(s[0]) then [s[0]] + Digits(s[1..])
    else Digits(s[1..])
  }

  /** What the filter keeps is all digits: no `+` survives. */
  lemma {:induction false} DigitsAreDigits(s: string)
    ensures AllDigits(Digits(s))
    ensures '+' !in Digits(s)
    decreases |s|
  {
    if s != [] {
      DigitsAreDigits(s[1..]);
    }
  }

  /** A run of digits passes the filter whole, and nothing else is added: the filter is idempotent. */
  lemma {:induction false} DigitsOfDigits(s: string)
    requires AllDigits(s)
    ensures Digits(s) == s
    decreases |s|
  {
    if s != [] {
      assert AllDigits(s[1..]) by { assert forall i :: 1 <= i < |s| ==> s[1..][i - 1] == s[i]; }
      DigitsOfDigits(s[1..]);
    }
  }

  /** The filter works character by character: it distributes over concatenation. */
  lemma {:induction false} DigitsAppend(a: string, b: string)
    ensures Digits(a + b) == Digits(a) + Digits(b)
    decreases |a|
  {
    if a == [] {
      assert a + b == b;
    } else {
      assert (a + b)[0] == a[0] && (a + b)[1..] == a[1..] + b;
      DigitsAppend(a[1..], b);
    }
  }

  lemma {:induction false} DigitsOfKept(s: string)
    ensures Digits(Phone.KeepPlusDigits(s)) == Digits(s)
    decreases |s|
  {
    if s != [] {
      DigitsOfKept(s[1..]);
      if Phone.IsPlusOrDigit(s[0]) {
        DigitsAppend([s[0]], Phone.KeepPlusDigits(s[1..]));
      }
    }
  }

  /**
   * This handler's normalisation and lib/phone.js's agree up to the `+`: the
   * digits of the sanitised number are the digits of the input.
   */
  lemma DigitsAfterSanitize(s: string)
    ensures Digits(Phone.SanitizePhoneNumber(s)) == Digits(s)
  {
    Phone.SanitizeKeepsPlusAndDigits(s);
    DigitsOfKept(s);
  }

  const UserPrefix: string := "user"

  /** `user${phoneDigits}`. */
  function State(whatsapp: string): (r: string)
    ensures |r| == |UserPrefix| + |Digits(whatsapp)| && r[..|UserPrefix|] == UserPrefix
    ensures forall i :: |UserPrefix| <= i < |r| ==> IsDigit(r[i])
  {
    UserPrefix + Digits(whatsapp)
  }

  lemma UserPrefixPlain()
    ensures AllUnreserved(UserPrefix) && |UserPrefix| == 4
    ensures '=' !in UserPrefix && '&' !in UserPrefix && '#' !in UserPrefix && '%' !in UserPrefix && '+' !in UserPrefix
  {
  }

  /** Removing the four-character `user` prefix gives back exactly the digits. */
  lemma StatePrefix(whatsapp: string)
    ensures |State(whatsapp)| == 4 + |Digits(whatsapp)|
    ensures State(whatsapp)[..4] == UserPrefix && State(whatsapp)[4..] == Digits(whatsapp)
  {
    UserPrefixPlain();
  }

  /** The state is letters and digits only, so percent-encoding leaves it as it is. */
  lemma StateUnencoded(whatsapp: string)
    ensures AllUnreserved(State(whatsapp))
    ensures EncodeUriComponent(State(whatsapp)) == State(whatsapp)
  {
    UserPrefixPlain();
    DigitsAreDigits(whatsapp);
    var s := State(whatsapp);
    assert forall i :: 4 <= i < |s| ==> s[i] == Digits(whatsapp)[i - 4];
  }

  /** The state holds no `=`, so no `whatsapp=` either, and nothing a form parser would change. */
  lemma StateInert(whatsapp: string)
    ensures '=' !in State(whatsapp) && '&' !in State(whatsapp) && '#' !in State(whatsapp)
    ensures '%' !in State(whatsapp) && '+' !in State(whatsapp)
  {
    UserPrefixPlain();
    DigitsAreDigits(whatsapp);
    var d := Digits(whatsapp);
    assert forall i :: 0 <= i < |d| ==> IsDigit(d[i]);
  }

  /** The provider reads the state back as `user` and the digits. */
  lemma ProviderReadsState(env: Env, whatsapp: string)
    ensures ApiLogin.Delimited(Interpolate(env.whoopClientId)) ==>
      SearchParamsGet(QueryOf(ApiLogin.AuthUrl(env, EncodeUriComponent(State(whatsapp)))), "state") == Some(State(whatsapp))
  {
    if ApiLogin.Delimited(Interpolate(env.whoopClientId)) {
      StateUnencoded(whatsapp);
      StateInert(whatsapp);
      ApiLogin.ProviderReads(env, State(whatsapp));
      FormDecodePlain(State(whatsapp));
    }
  }

  /**
   * The handler: a missing or empty number is a 400 with no redirect;
   * otherwise always a redirect to the authorization URL (the same assembly
   * as api/login.js), whose state the provider reads as `user` and the digits.
   */
  function Handle(whatsapp: Option<string>, env: Env): (r: Response)
    ensures r.JsonError? <==> whatsapp.None? || whatsapp == Some("")
    ensures r.JsonError? ==> r == JsonError(400, ApiLogin.MissingNumber)
    ensures !r.JsonError? ==> r.Redirect? && whatsapp.Some?
    ensures r.Redirect? ==> r.location == ApiLogin.AuthUrl(env, State(whatsapp.value))
    ensures r.Redirect? && ApiLogin.Delimited(Interpolate(env.whoopClientId)) ==>
      SearchParamsGet(QueryOf(r.location), "state") == Some(UserPrefix + Digits(whatsapp.value))
  {
    if whatsapp.None? || whatsapp.value == "" then JsonError(400, ApiLogin.MissingNumber)
    else
      var w := whatsapp.value;
      StateUnencoded(w);
      ProviderReadsState(env, w);
      Redirect(ApiLogin.AuthUrl(env, EncodeUriComponent(State(w))))
  }
}
