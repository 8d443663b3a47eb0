/**
 * The sign-in round trips across the handlers: the number travels from the
 * webhook or the login page, through the login endpoint and the
 * authorization server's `state` echo (section 4.1.2 of RFC 6749), to a
 * callback that stores the tokens under the number it reads back.
 */
module Flows {

  import opened Js
  import opened Uri
  import opened Http
  import opened Tokens
  import LoginRedirect
  import ApiLogin
  import PagesApiLogin
  import ApiCallback
  import PagesApiCallback
  import ApiWhatsapp
  import Db

  /**
   * From the login page to the login endpoint: a non-empty number gets the
   * authorization URL built for that very number.
   */
  lemma LoginPageReachesLogin(whatsapp: string, env: Env)
    requires whatsapp != ""
    ensures var props := LoginRedirect.GetServerSideProps(Some(whatsapp));
      && props.RedirectTo?
      && ApiLogin.Handle(SearchParamsGet(QueryOf(props.destination), "whatsapp"), env)
         == JsonUrl(ApiLogin.AuthUrl(env, ApiLogin.State(whatsapp)))
  {
  }

  /**
   * From the webhook's login link to the state the authorization server
   * echoes: the login endpoint reads the sender, and the state comes back
   * as `whatsapp=` and the sender.
   */
  lemma LinkStateEchoed(env: Env, authEnv: Env, from: string)
    requires from != ""
    requires '?' !in Interpolate(env.baseUrl) && ApiLogin.Delimited(Interpolate(authEnv.whoopClientId))
    ensures var received := SearchParamsGet(QueryOf(ApiWhatsapp.LoginLink(env, from)), "whatsapp");
      var r := ApiLogin.Handle(received, authEnv);
      r.JsonUrl? && SearchParamsGet(QueryOf(r.url), "state") == Some("whatsapp=" + from)
  {
    ApiWhatsapp.LoginLinkReceives(env, from);
  }

  /**
   * api/callback.js reads that echoed state as form data: a sender such as
   * `whatsapp:+15551234567` comes back with its `+` turned into a space, so
   * the stored document is not the sender's, and the webhook's lookup by the
   * sender still finds what it found before.
   */
  lemma PlusSenderStoredUnderOtherNumber(docs: seq<Doc>, from: string, code: string, tokenData: Doc, now: int)
    requires '+' in from && '&' !in from && '%' !in from
    requires code != "" && "whatsapp" !in tokenData
    ensures var o := ApiCallback.Callback(Some(code), Some("whatsapp=" + from), ApiCallback.Exchanged(tokenData), now);
      && o.inserted.Some?
      && Matches(o.inserted.value, Substitute(from, '+', ' '))
      && !Matches(o.inserted.value, from)
      && FindOne(docs + [o.inserted.value], from) == FindOne(docs, from)
  {
    ApiCallback.StateNumberPlus(from);
    var number := Substitute(from, '+', ' ');
    assert number != "" by { assert |number| == |from|; }
    var o := ApiCallback.Callback(Some(code), Some("whatsapp=" + from), ApiCallback.Exchanged(tokenData), now);
    assert number != from;
    FindOneAppend(docs, o.inserted.value, from);
  }

  /**
   * Hence a sender with a `+` and no document keeps being sent the login
   * link after completing the sign-in through api/callback.js.
   */
  lemma PlusSenderStaysLoggedOut(docs: seq<Doc>, from: string, code: string, tokenData: Doc, authNow: int,
                                 env: Env, now: int, fetched: Option<Value>, coach: Option<string>, sendOk: bool)
    requires '+' in from && '&' !in from && '%' !in from
    requires code != "" && "whatsapp" !in tokenData
    requires forall i :: 0 <= i < |docs| ==> !Matches(docs[i], from)
    ensures var o := ApiCallback.Callback(Some(code), Some("whatsapp=" + from), ApiCallback.Exchanged(tokenData), authNow);
      o.inserted.Some? &&
      ApiWhatsapp.Webhook(docs + [o.inserted.value], from, env, now, fetched, coach, sendOk).effects
        == [ApiWhatsapp.SendMessage(from, ApiWhatsapp.LoginMessage(env, from))]
  {
    var o := ApiCallback.Callback(Some(code), Some("whatsapp=" + from), ApiCallback.Exchanged(tokenData), authNow);
    PlusSenderStoredUnderOtherNumber(docs, from, code, tokenData, authNow);
    assert FindOne(docs + [o.inserted.value], from) == None;
  }

  /**
   * A number without `+`, `&` or `%` makes the round trip intact: the
   * callback stores it under the sender's own number, and a later message
   * from the sender finds that document.
   */
  lemma PlainSenderFound(docs: seq<Doc>, from: string, code: string, tokenData: Doc, now: int)
    requires from != "" && '+' !in from && '&' !in from && '%' !in from
    requires code != "" && "whatsapp" !in tokenData
    ensures var o := ApiCallback.Callback(Some(code), Some("whatsapp=" + from), ApiCallback.Exchanged(tokenData), now);
      && o.inserted.Some?
      && Matches(o.inserted.value, from)
      && FindOne(docs + [o.inserted.value], from).Some?
  {
    ApiCallback.StateNumberPlus(from);
    var o := ApiCallback.Callback(Some(code), Some("whatsapp=" + from), ApiCallback.Exchanged(tokenData), now);
    FindOneAppend(docs, o.inserted.value, from);
  }

  /**
   * The stored document holds the token response's fields and `created_at`
   * but no `expires_at` unless the response had one, so the webhook still
   * asks for a login.
   */
  lemma StoredWithoutExpiry(code: string, state: string, tokenData: Doc, authNow: int, now: int)
    requires "expires_at" !in tokenData
    requires ApiCallback.Callback(Some(code), Some(state), ApiCallback.Exchanged(tokenData), authNow).inserted.Some?
    ensures ApiWhatsapp.NeedsLogin(ApiCallback.Callback(Some(code), Some(state), ApiCallback.Exchanged(tokenData), authNow).inserted, now)
  {
    var o := ApiCallback.Callback(Some(code), Some(state), ApiCallback.Exchanged(tokenData), authNow);
    assert "expires_at" !in o.inserted.value;
    ApiWhatsapp.NoExpiryNeedsLogin(o.inserted.value, now);
  }

  /**
   * pages/api/callback.js reads the same echoed state with its pattern: the
   * `+` is kept, unlike api/callback.js.
   */
  lemma PatternKeepsPlus(from: string)
    requires from != "" && '&' !in from && '%' !in from
    ensures PagesApiCallback.DecodeState(Some("whatsapp=" + from)) == PagesApiCallback.Found(from)
  {
    PagesApiCallback.DecodePlainValue("", from);
    assert "" + PagesApiCallback.Key + from == "whatsapp=" + from;
  }

  /**
   * The pages login sends the state `user` and digits, which the
   * authorization server echoes; the pages callback finds no `whatsapp=`
   * in it and rejects every such callback with 400, storing nothing.
   */
  lemma UserStateRejected(whatsapp: string, env: Env, code: Option<string>, token: Option<Db.TokenResponse>, now: int)
    requires whatsapp != "" && ApiLogin.Delimited(Interpolate(env.whoopClientId))
    ensures var r := PagesApiLogin.Handle(Some(whatsapp), env);
      var echoed := SearchParamsGet(QueryOf(r.location), "state");
      && r.Redirect? && echoed.Some?
      && PagesApiCallback.Callback(code, echoed, token, now)
         == PagesApiCallback.Outcome(JsonError(400, PagesApiCallback.MissingNumber), None)
  {
    var state := PagesApiLogin.State(whatsapp);
    PagesApiLogin.StateInert(whatsapp);
    PagesApiCallback.NoEqualsNoMatch(state);
  }
}
