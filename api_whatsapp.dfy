/**
 * api/whatsapp.js: the WhatsApp webhook. It looks up the sender's token
 * document, sends a login link when there is no usable token, and otherwise
 * fetches the latest WHOOP recovery, asks the coach model about it and sends
 * the answer back.
 */
module ApiWhatsapp {

  import opened Js
  import opened Uri
  import opened Http
  import opened Tokens
  import LoginRedirect

  const LinkSent: string := "Login link sent"
  const ResponseSent: string := "Response sent"
  const InternalError: string := "Internal error"

  /** The text in front of the login link: a waving hand, the invitation, a new line and a pointing hand. */
  const Greeting: string := "\U{1F44B} To get started, connect your WHOOP account:\n\U{1F449} "

  /**
   * The time value of `new Date(v)` in milliseconds, None for an invalid date.
   * Dates and numbers are their own value, `true` is 1 and `null` is 0, each
   * clipped to the range of a `Date`; strings, arrays and objects are treated
   * as invalid dates.
   */
  function TimeValue(v: Value): (r: Option<int>)
    ensures v.Date? ==> r == TimeClip(v.ms)
    ensures v.Num? ==> r == TimeClip(v.n)
    ensures r.Some? ==> -MaxTime <= r.value <= MaxTime
  {
    match v
    case Date(ms) => TimeClip(ms)
    case Num(n) => TimeClip(n)
    case Bool(b) => Some(if b then 1 else 0)
    case Null => Some(0)
    case _ => None
  }

  /** `new Date(v) < new Date()`: an invalid date compares false, so it never counts as expired. */
  predicate Expired(v: Value, now: int) {
    TimeValue(v).Some? && TimeValue(v).value < now
  }

  /**
   * The link check: no document, a falsy `access_token`, a falsy
   * `expires_at`, or an `expires_at` strictly before now.
   */
  predicate NeedsLogin(user: Option<Doc>, now: int)
    ensures user.None? ==> NeedsLogin(user, now)
    ensures !NeedsLogin(user, now) ==>
      && user.Some?
      && "access_token" in user.value && Truthy(user.value["access_token"])
      && "expires_at" in user.value && Truthy(user.value["expires_at"])
      && (TimeValue(user.value["expires_at"]).None? || TimeValue(user.value["expires_at"]).value >= now)
  {
    || user.None?
    || Falsy(Get(user.value, "access_token"))
    || Falsy(Get(user.value, "expires_at"))
    || Expired(user.value["expires_at"], now)
  }

  /** The comparison is strict: a token that expires exactly now is still used. */
  lemma ExpiresNowIsValid(doc: Doc, now: int)
    requires "access_token" in doc && Truthy(doc["access_token"])
    requires "expires_at" in doc && doc["expires_at"] == Date(now)
    ensures !NeedsLogin(Some(doc), now)
  {
  }

  /** A token that expired a millisecond ago, at a time a `Date` can hold, is not. */
  lemma ExpiredBeforeNow(doc: Doc, now: int)
    requires "expires_at" in doc && doc["expires_at"] == Date(now - 1) && -MaxTime <= now - 1 <= MaxTime
    ensures NeedsLogin(Some(doc), now)
  {
  }

  /**
   * An `expires_at` number beyond the range of a `Date` makes an invalid
   * date, which never compares as expired: with a truthy token, such a
   * document is used at any time.
   */
  lemma OutOfRangeNeverExpires(doc: Doc, n: int, now: int)
    requires "access_token" in doc && Truthy(doc["access_token"])
    requires "expires_at" in doc && doc["expires_at"] == Num(n) && (n < -MaxTime || n > MaxTime)
    ensures !NeedsLogin(Some(doc), now)
  {
  }

  /** Once a document needs a login, it keeps needing one as time goes on. */
  lemma NeedsLoginLater(user: Option<Doc>, now: int, later: int)
    requires NeedsLogin(user, now) && now <= later
    ensures NeedsLogin(user, later)
  {
  }

  /** A document without `expires_at`, such as one holding only a token response's `expires_in`, always needs a login. */
  lemma NoExpiryNeedsLogin(doc: Doc, now: int)
    requires "expires_at" !in doc
    ensures NeedsLogin(Some(doc), now)
  {
  }

  const LoginPath: string := "/api/login?whatsapp="

  /** `${BASE_URL}/api/login?whatsapp=${encodeURIComponent(From)}`. */
  function LoginLink(env: Env, from: string): (link: string)
    ensures var base := Interpolate(env.baseUrl);
      && |link| >= |base| + |LoginPath|
      && link[..|base|] == base
      && link[|base|..|base| + |LoginPath|] == LoginPath
      && DecodeUriComponent(link[|base| + |LoginPath|..]) == Some(from)
  {
    var base, e := Interpolate(env.baseUrl), EncodeUriComponent(from);
    Uri.DecodeEncode(from);
    assert (base + LoginPath + e)[|base| + |LoginPath|..] == e;
    base + LoginPath + e
  }

  /**
   * Behind a base URL without `?`, the login endpoint reads back exactly the
   * sender. The link is the one the login page redirects to, behind the base.
   */
  lemma LoginLinkReceives(env: Env, from: string)
    requires '?' !in Interpolate(env.baseUrl)
    ensures SearchParamsGet(QueryOf(LoginLink(env, from)), "whatsapp") == Some(from)
  {
    assert LoginLink(env, from) == Interpolate(env.baseUrl) + LoginRedirect.Destination(from);
    LoginRedirect.ReceivesBehind(Interpolate(env.baseUrl), from);
  }

  /** The message carrying the login link. */
  function LoginMessage(env: Env, from: string): (m: string)
    ensures |m| >= |Greeting| && m[..|Greeting|] == Greeting && m[|Greeting|..] == LoginLink(env, from)
  {
    Greeting + LoginLink(env, from)
  }

  /** The four metrics getLatestWhoopRecovery returns. */
  datatype Recovery = Recovery(recoveryScore: Value, hrv: Value, rhr: Value, spo2: Value)

  /** `x || 0` for a property that may be `undefined`. */
  function OrZero(x: Option<Value>): (r: Value)
    ensures x.Some? && Truthy(x.value) ==> r == x.value
    ensures !(x.Some? && Truthy(x.value)) ==> r == Num(0)
    ensures Truthy(r) || r == Num(0)
  {
    if x.Some? && Truthy(x.value) then x.value else Num(0)
  }

  /** `json.records?.[0]?.score || {}`. */
  function Latest(json: Value): (r: Value)
    ensures var score := Prop(First(Prop(Some(json), "records")), "score");
      && (score.Some? && Truthy(score.value) ==> r == score.value)
      && (!(score.Some? && Truthy(score.value)) ==> r == Obj(map[]))
    ensures Truthy(r)
  {
    var score := Prop(First(Prop(Some(json), "records")), "score");
    if score.Some? && Truthy(score.value) then score.value else Obj(map[])
  }

  /** Every metric is a truthy value or the default 0. */
  predicate Normalised(r: Recovery) {
    && (Truthy(r.recoveryScore) || r.recoveryScore == Num(0))
    && (Truthy(r.hrv) || r.hrv == Num(0))
    && (Truthy(r.rhr) || r.rhr == Num(0))
    && (Truthy(r.spo2) || r.spo2 == Num(0))
  }

  /**
   * The normalisation of a parsed recovery body: a `null` body makes
   * `json.records` throw; otherwise each metric is the first record's score
   * field when that is truthy, else 0.
   */
  function Normalise(json: Value): (r: Option<Recovery>)
    ensures r.None? <==> json == Null
    ensures r.Some? ==> Normalised(r.value)
    ensures r.Some? ==> var latest := Some(Latest(json));
      && r.value.recoveryScore == OrZero(Prop(latest, "recovery_score"))
      && r.value.hrv == OrZero(Prop(latest, "hrv_rmssd_milli"))
      && r.value.rhr == OrZero(Prop(latest, "resting_heart_rate"))
      && r.value.spo2 == OrZero(Prop(latest, "spo2_percentage"))
  {
    if json == Null then None
    else
      var latest := Some(Latest(json));
      Some(Recovery(
        OrZero(Prop(latest, "recovery_score")),
        OrZero(Prop(latest, "hrv_rmssd_milli")),
        OrZero(Prop(latest, "resting_heart_rate")),
        OrZero(Prop(latest, "spo2_percentage"))))
  }

  const Zero: Recovery := Recovery(Num(0), Num(0), Num(0), Num(0))

  /** Without records, or with a first record lacking a truthy score, every metric is 0. */
  lemma NoScoreAllZero(json: Value)
    requires json != Null
    requires var score := Prop(First(Prop(Some(json), "records")), "score");
      score.None? || !Truthy(score.value)
    ensures Normalise(json) == Some(Zero)
  {
    assert Latest(json) == Obj(map[]);
  }

  /**
   * When the first record's score is an object, each metric is that
   * object's field of the same meaning when the field is truthy, and 0 when
   * it is missing or falsy (`null`, `0`, `""`, `false`), field by field.
   */
  lemma NormaliseScore(json: Value, score: map<string, Value>)
    requires json != Null && Prop(First(Prop(Some(json), "records")), "score") == Some(Obj(score))
    ensures var r := Normalise(json).value;
      && r.recoveryScore == (if "recovery_score" in score && Truthy(score["recovery_score"]) then score["recovery_score"] else Num(0))
      && r.hrv == (if "hrv_rmssd_milli" in score && Truthy(score["hrv_rmssd_milli"]) then score["hrv_rmssd_milli"] else Num(0))
      && r.rhr == (if "resting_heart_rate" in score && Truthy(score["resting_heart_rate"]) then score["resting_heart_rate"] else Num(0))
      && r.spo2 == (if "spo2_percentage" in score && Truthy(score["spo2_percentage"]) then score["spo2_percentage"] else Num(0))
  {
    assert Latest(json) == Obj(score);
  }

  /**
   * One falsy metric becomes 0 on its own: a score whose HRV is `null` (or
   * any falsy value) gives an HRV of 0 and passes the three truthy metrics
   * through unchanged.
   */
  lemma OneFalsyField(m: Recovery, hrv: Value)
    requires Truthy(m.recoveryScore) && Truthy(m.rhr) && Truthy(m.spo2) && !Truthy(hrv)
    ensures Normalise(BodyOf(m.(hrv := hrv))) == Some(m.(hrv := Num(0)))
  {
    ScoreNames();
    var score := ScoreOf(m.(hrv := hrv));
    assert Prop(First(Prop(Some(BodyOf(m.(hrv := hrv))), "records")), "score") == Some(Obj(score));
    NormaliseScore(BodyOf(m.(hrv := hrv)), score);
  }

  /**
   * `json.records` given as an object with a `"0"` property is indexed like
   * an array: its `"0"` record's score is the one normalised.
   */
  lemma RecordsAsObject(fields: map<string, Value>, record: map<string, Value>, score: map<string, Value>)
    requires "score" in record && record["score"] == Obj(score)
    ensures var json := Obj(fields["records" := Obj(map["0" := Obj(record)])]);
      Latest(json) == Obj(score)
  {
  }

  /** Only the first record counts: what follows it in `records` makes no difference. */
  lemma FirstRecordOnly(fields: map<string, Value>, first: Value, rest: seq<Value>)
    ensures Normalise(Obj(fields["records" := Arr([first] + rest)])) == Normalise(Obj(fields["records" := Arr([first])]))
  {
    assert Latest(Obj(fields["records" := Arr([first] + rest)])) == Latest(Obj(fields["records" := Arr([first])]));
  }

  /** The score object of a recovery body that carries the given metrics. */
  function ScoreOf(r: Recovery): map<string, Value> {
    map["recovery_score" := r.recoveryScore, "hrv_rmssd_milli" := r.hrv,
        "resting_heart_rate" := r.rhr, "spo2_percentage" := r.spo2]
  }

  /** A recovery body with one record whose score carries the given metrics. */
  function BodyOf(r: Recovery): Value {
    Obj(map["records" := Arr([Obj(map["score" := Obj(ScoreOf(r))])])])
  }

  lemma ScoreNames()
    ensures "recovery_score" != "hrv_rmssd_milli" && "recovery_score" != "resting_heart_rate"
    ensures "recovery_score" != "spo2_percentage" && "hrv_rmssd_milli" != "resting_heart_rate"
    ensures "hrv_rmssd_milli" != "spo2_percentage" && "resting_heart_rate" != "spo2_percentage"
  {
  }

  /** Normalised metrics survive the trip through a recovery body unchanged. */
  lemma NormaliseBody(r: Recovery)
    requires Normalised(r)
    ensures Normalise(BodyOf(r)) == Some(r)
  {
    ScoreNames();
    var score := ScoreOf(r);
    assert Latest(BodyOf(r)) == Obj(score);
    assert score["recovery_score"] == r.recoveryScore && score["hrv_rmssd_milli"] == r.hrv;
    assert score["resting_heart_rate"] == r.rhr && score["spo2_percentage"] == r.spo2;
  }

  /** An outside action the handler takes, in order. */
  datatype Effect =
    | SendMessage(to: string, text: string)   // sendWhatsApp(text, to)
    | FetchRecovery(accessToken: Value)       // getLatestWhoopRecovery(user.access_token)
    | AskCoach(metrics: Recovery)             // getGPTReply on a prompt built from the metrics

  /** What one webhook request answers, and the actions it takes. */
  datatype Turn = Turn(response: Response, effects: seq<Effect>)

  function Sends(effects: seq<Effect>): (n: nat)
    ensures n <= |effects|
  {
    if effects == [] then 0 else (if effects[0].SendMessage? then 1 else 0) + Sends(effects[1..])
  }

  predicate Fetches(effects: seq<Effect>) {
    exists i :: 0 <= i < |effects| && effects[i].FetchRecovery?
  }

  lemma SendsCons(e: Effect, rest: seq<Effect>)
    ensures Sends([e] + rest) == (if e.SendMessage? then 1 else 0) + Sends(rest)
  {
    assert ([e] + rest)[1..] == rest;
  }

  /** The branch for a sender who must log in: the login message, answered 200 when it went out. */
  function LoginTurn(from: string, env: Env, sendOk: bool): (t: Turn)
    ensures t.effects == [SendMessage(from, LoginMessage(env, from))]
    ensures Sends(t.effects) == 1 && !Fetches(t.effects)
    ensures t.response == (if sendOk then Sent(200, LinkSent) else Sent(500, InternalError))
  {
    SendsCons(SendMessage(from, LoginMessage(env, from)), []);
    Turn(if sendOk then Sent(200, LinkSent) else Sent(500, InternalError), [SendMessage(from, LoginMessage(env, from))])
  }

  /**
   * The branch for a logged-in sender with access token `token`: fetch the
   * recovery, then, when it came back, ask the coach about the normalised
   * metrics, then, when the coach answered, send the answer to the sender.
   * The first failure stops the chain and is answered 500.
   */
  function DataTurn(token: Value, from: string, fetched: Option<Value>, coach: Option<string>, sendOk: bool): (t: Turn)
    ensures 1 <= |t.effects| <= 3 && t.effects[0] == FetchRecovery(token) && Fetches(t.effects)
    ensures |t.effects| > 1 <==> fetched.Some? && fetched.value != Null
    ensures |t.effects| > 1 ==> fetched.Some? && fetched.value != Null && t.effects[1] == AskCoach(Normalise(fetched.value).value)
    ensures |t.effects| > 2 <==> fetched.Some? && fetched.value != Null && coach.Some?
    ensures |t.effects| > 2 ==> coach.Some? && t.effects[2] == SendMessage(from, coach.value)
    ensures Sends(t.effects) == (if |t.effects| > 2 then 1 else 0)
    ensures forall i :: 0 <= i < |t.effects| && t.effects[i].SendMessage? ==> i == 2 && t.effects[i].to == from
    ensures t.response == (if |t.effects| > 2 && sendOk then Sent(200, ResponseSent) else Sent(500, InternalError))
  {
    var fetch := FetchRecovery(token);
    SendsCons(fetch, []);
    if fetched.None? || fetched.value == Null then
      Turn(Sent(500, InternalError), [fetch])
    else
      var ask := AskCoach(Normalise(fetched.value).value);
      SendsCons(ask, []);
      SendsCons(fetch, [ask]);
      if coach.None? then
        Turn(Sent(500, InternalError), [fetch, ask])
      else
        var send := SendMessage(from, coach.value);
        SendsCons(send, []);
        SendsCons(ask, [send]);
        SendsCons(fetch, [ask, send]);
        Turn(if sendOk then Sent(200, ResponseSent) else Sent(500, InternalError), [fetch, ask, send])
  }

  /**
   * The handler for a message from `from`, against the documents of
   * `whoop_tokens`. The outside answers are parameters: `fetched` is the
   * parsed recovery body, None when the status was not OK; `coach` is the
   * model's trimmed answer, None when the call threw; `sendOk` says whether
   * sending the message succeeded. Any failure is answered 500.
   */
  function Webhook(docs: seq<Doc>, from: string, env: Env, now: int,
                   fetched: Option<Value>, coach: Option<string>, sendOk: bool): (t: Turn)
    ensures t.response in {Sent(200, LinkSent), Sent(200, ResponseSent), Sent(500, InternalError)}
    ensures NeedsLogin(FindOne(docs, from), now) <==> t.effects == [SendMessage(from, LoginMessage(env, from))]
    ensures t.response == Sent(200, LinkSent) <==> NeedsLogin(FindOne(docs, from), now) && sendOk
    ensures t.response == Sent(200, ResponseSent) <==>
      !NeedsLogin(FindOne(docs, from), now) && fetched.Some? && fetched.value != Null && coach.Some? && sendOk
  {
    var user := FindOne(docs, from);
    if NeedsLogin(user, now) then LoginTurn(from, env, sendOk)
    else DataTurn(user.value["access_token"], from, fetched, coach, sendOk)
  }

  /**
   * Exactly one message is sent, to the sender, unless an outside call
   * before the send failed; then none is.
   */
  lemma OneMessage(docs: seq<Doc>, from: string, env: Env, now: int,
                   fetched: Option<Value>, coach: Option<string>, sendOk: bool)
    ensures var t := Webhook(docs, from, env, now, fetched, coach, sendOk);
      && Sends(t.effects) <= 1
      && (forall i :: 0 <= i < |t.effects| && t.effects[i].SendMessage? ==> t.effects[i].to == from)
      && (Sends(t.effects) == 1 <==>
          NeedsLogin(FindOne(docs, from), now) || (fetched.Some? && fetched.value != Null && coach.Some?))
  {
  }

  /**
   * The recovery is fetched exactly when no login is needed, with the
   * document's token, and the coach is asked about the normalised metrics
   * before its answer is sent.
   */
  lemma FetchOrder(docs: seq<Doc>, from: string, env: Env, now: int,
                   fetched: Option<Value>, coach: Option<string>, sendOk: bool)
    ensures var t := Webhook(docs, from, env, now, fetched, coach, sendOk);
      && (NeedsLogin(FindOne(docs, from), now) <==> !Fetches(t.effects))
      && (!NeedsLogin(FindOne(docs, from), now) ==>
          && t.effects[0] == FetchRecovery(FindOne(docs, from).value["access_token"])
          && (|t.effects| > 1 ==> fetched.Some? && fetched.value != Null
                                  && t.effects[1] == AskCoach(Normalise(fetched.value).value))
          && (|t.effects| > 2 ==> coach.Some? && t.effects[2] == SendMessage(from, coach.value)))
  {
  }

  /** A sender with no document at all gets the login link, and nothing is fetched. */
  lemma UnknownSenderGetsLink(docs: seq<Doc>, from: string, env: Env, now: int,
                              fetched: Option<Value>, coach: Option<string>, sendOk: bool)
    requires forall i :: 0 <= i < |docs| ==> !Matches(docs[i], from)
    ensures Webhook(docs, from, env, now, fetched, coach, sendOk).effects == [SendMessage(from, LoginMessage(env, from))]
  {
  }
}
