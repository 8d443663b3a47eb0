/**
 * api/login.js: answers with the WHOOP authorization URL as JSON, the
 * messaging number carried in the OAuth `state` parameter (section 4.1.1 of
 * RFC 6749). The URL assembly is shared with pages/api/login.js.
 */
module ApiLogin {

  import opened Js
  import opened Uri
  import opened Http

  const AuthEndpoint: string := "https://api.prod.whoop.com/oauth/oauth2/auth"
  /** The five scopes, separated by literal spaces. */
  const Scope: string := "read:profile" + " " + "read:recovery" + " " + "read:sleep" + " " + "read:workout" + " " + "read:body_measurement"
  const MissingNumber: string := "Missing WhatsApp number"

  /** The query parameters of the authorization request, in the order the URL lists them. */
  function AuthParams(env: Env, state: string): seq<(string, string)> {
    [ ("response_type", "code"),
      ("client_id", Interpolate(env.whoopClientId)),
      ("redirect_uri", EncodeUriComponent(Interpolate(env.whoopRedirectUri))),
      ("scope", Scope),
      ("state", state) ]
  }

  /**
   * The authorization URL as the handlers concatenate it: the client id is
   * inserted raw, the redirect URI percent-encoded, the scope with its literal
   * spaces, and `state` as given (the caller has already encoded it).
   */
  function AuthUrl(env: Env, state: string): (url: string)
    ensures |url| > |AuthEndpoint| + 8 + |state| && url[..|AuthEndpoint| + 1] == AuthEndpoint + "?"
    ensures url[|url| - |state| - 7..] == "&state=" + state
  {
    UrlShape(Interpolate(env.whoopClientId), EncodeUriComponent(Interpolate(env.whoopRedirectUri)), state);
    AuthEndpoint
    + "?response_type=code"
    + "&client_id=" + Interpolate(env.whoopClientId)
    + "&redirect_uri=" + EncodeUriComponent(Interpolate(env.whoopRedirectUri))
    + "&scope=" + Scope
    + "&state=" + state
  }

  /** The URL for client id `c` and redirect URI `r` starts with the endpoint and `?`, and ends with the state. */
  lemma UrlShape(c: string, r: string, state: string)
    ensures var url := AuthEndpoint + "?response_type=code" + "&client_id=" + c + "&redirect_uri=" + r
                       + "&scope=" + Scope + "&state=" + state;
      && |url| > |AuthEndpoint| + 8 + |state| && url[..|AuthEndpoint| + 1] == AuthEndpoint + "?"
      && url[|url| - |state| - 7..] == "&state=" + state
  {
    var n := |AuthEndpoint| + 1;
    var p0 := AuthEndpoint + "?response_type=code";
    var p1 := p0 + "&client_id=";
    var p2 := p1 + c;
    var p3 := p2 + "&redirect_uri=";
    var p4 := p3 + r;
    var p5 := p4 + "&scope=";
    var p6 := p5 + Scope;
    assert p0[..n] == AuthEndpoint + "?";
    KeepsPrefix(p0, "&client_id=", n);
    KeepsPrefix(p1, c, n);
    KeepsPrefix(p2, "&redirect_uri=", n);
    KeepsPrefix(p3, r, n);
    KeepsPrefix(p4, "&scope=", n);
    KeepsPrefix(p5, Scope, n);
    KeepsPrefix(p6, "&state=", n);
    KeepsPrefix(p6 + "&state=", state, n);
    EndsWith(p6, "&state=", state);
  }

  lemma KeepsPrefix(a: string, b: string, n: nat)
    requires n <= |a|
    ensures (a + b)[..n] == a[..n]
  {
  }

  lemma EndsWith(a: string, b: string, c: string)
    ensures (a + b + c)[|a + b + c| - |c| - |b|..] == b + c
  {
  }

  lemma Shift(sep: string, name: string, value: string, t: string)
    requires sep == "&" + name + "="
    ensures sep + value + ("&" + t) == "&" + (name + "=" + value + "&" + t)
  {
  }

  lemma Regroup(x: string, l: string, v: string, t: string)
    ensures x + l + v + t == x + (l + v + t)
  {
  }

  /**
   * A URL written as literal pieces `?n1=v1`, `&n2=`, v2, ..., `&n5=`, v5 is the
   * endpoint, `?`, and the five pairs joined.
   */
  lemma JoinFive(e: string, l1: string, l2: string, l3: string, l4: string, l5: string,
                 n1: string, n2: string, n3: string, n4: string, n5: string,
                 v1: string, v2: string, v3: string, v4: string, v5: string)
    requires l1 == "?" + (n1 + "=" + v1)
    requires l2 == "&" + n2 + "=" && l3 == "&" + n3 + "=" && l4 == "&" + n4 + "=" && l5 == "&" + n5 + "="
    ensures e + l1 + l2 + v2 + l3 + v3 + l4 + v4 + l5 + v5
         == e + "?" + Query([(n1, v1), (n2, v2), (n3, v3), (n4, v4), (n5, v5)])
  {
    var p5: seq<(string, string)> := [(n5, v5)];
    var p4 := [(n4, v4)] + p5;
    var p3 := [(n3, v3)] + p4;
    var p2 := [(n2, v2)] + p3;
    assert [(n1, v1)] + p2 == [(n1, v1), (n2, v2), (n3, v3), (n4, v4), (n5, v5)];
    assert Query(p5) == n5 + "=" + v5;
    QueryCons(n4, v4, p5);
    QueryCons(n3, v3, p4);
    QueryCons(n2, v2, p3);
    QueryCons(n1, v1, p2);
    var s5 := l5 + v5;
    assert s5 == "&" + Query(p5);
    var s4 := l4 + v4 + s5;
    Shift(l4, n4, v4, Query(p5));
    var s3 := l3 + v3 + s4;
    Shift(l3, n3, v3, Query(p4));
    var s2 := l2 + v2 + s3;
    Shift(l2, n2, v2, Query(p3));
    assert l1 + s2 == "?" + Query([(n1, v1)] + p2);
    var x3 := e + l1;
    var x5 := x3 + l2 + v2;
    var x7 := x5 + l3 + v3;
    var x9 := x7 + l4 + v4;
    assert x9 + l5 + v5 == x9 + s5;
    Regroup(x7, l4, v4, s5);
    Regroup(x5, l3, v3, s4);
    Regroup(x3, l2, v2, s3);
    assert x3 + s2 == e + (l1 + s2);
  }

  /** The literal pieces of the URL, each a delimiter around a parameter name. */
  lemma UrlPieces()
    ensures "?response_type=code" == "?" + ("response_type" + "=" + "code")
    ensures "&client_id=" == "&" + "client_id" + "=" && "&redirect_uri=" == "&" + "redirect_uri" + "="
    ensures "&scope=" == "&" + "scope" + "=" && "&state=" == "&" + "state" + "="
  {
  }

  /** The URL is the endpoint, `?`, then the five parameters in order, each `name=value`. */
  lemma AuthUrlIsQuery(env: Env, state: string)
    ensures AuthUrl(env, state) == AuthEndpoint + "?" + Query(AuthParams(env, state))
  {
    var c, r := Interpolate(env.whoopClientId), EncodeUriComponent(Interpolate(env.whoopRedirectUri));
    UrlPieces();
    JoinFive(AuthEndpoint, "?response_type=code", "&client_id=", "&redirect_uri=", "&scope=", "&state=",
             "response_type", "client_id", "redirect_uri", "scope", "state", "code", c, r, Scope, state);
  }

  /** `encodeURIComponent("whatsapp=" + whatsapp)`. */
  function State(whatsapp: string): (r: string)
    ensures forall i :: 0 <= i < |r| ==> r[i] == '%' || IsUnreserved(r[i])
  {
    EncodeUriComponent("whatsapp=" + whatsapp)
  }

  /** Decoding the state gives back exactly `whatsapp=` and the number. */
  lemma StateRoundTrip(whatsapp: string)
    ensures DecodeUriComponent(State(whatsapp)) == Some("whatsapp=" + whatsapp)
  {
    Uri.DecodeEncode("whatsapp=" + whatsapp);
  }

  /** The state holds none of the characters that would end or add a query parameter. */
  lemma StateInert(whatsapp: string)
    ensures '&' !in State(whatsapp) && '=' !in State(whatsapp) && '+' !in State(whatsapp)
    ensures '#' !in State(whatsapp) && ' ' !in State(whatsapp) && '?' !in State(whatsapp)
  {
    EncodedInert("whatsapp=" + whatsapp);
  }

  /** A value that cannot end its parameter or the query early. */
  predicate Delimited(v: string) {
    '&' !in v && '#' !in v
  }

  /** None of the characters that would end or alter a query value. */
  predicate Inert(s: string) {
    '&' !in s && '#' !in s && '%' !in s && '+' !in s
  }

  lemma InertJoin(a: string, b: string)
    requires Inert(a) && Inert(b)
    ensures Inert(a + " " + b)
  {
    assert Inert(" ");
  }

  /** Lower-case letters, `:` and `_`: the characters of the scope names. */
  predicate ScopeWord(w: string) {
    forall i :: 0 <= i < |w| ==> 'a' <= w[i] <= 'z' || w[i] == ':' || w[i] == '_'
  }

  lemma ScopeWordInert(w: string)
    requires ScopeWord(w)
    ensures Inert(w)
  {
    assert forall i :: 0 <= i < |w| ==> w[i] != '&' && w[i] != '#' && w[i] != '%' && w[i] != '+';
  }

  lemma ScopeWordsInert()
    ensures Inert("read:profile") && Inert("read:recovery") && Inert("read:sleep")
    ensures Inert("read:workout") && Inert("read:body_measurement")
  {
    ScopeWords();
    ScopeWordInert("read:profile");
    ScopeWordInert("read:recovery");
    ScopeWordInert("read:sleep");
    ScopeWordInert("read:workout");
    ScopeWordInert("read:body_measurement");
  }

  lemma ScopeWords()
    ensures ScopeWord("read:profile") && ScopeWord("read:recovery") && ScopeWord("read:sleep")
    ensures ScopeWord("read:workout") && ScopeWord("read:body_measurement")
  {
    ScopeWordsShort();
    ScopeWordLong();
  }

  lemma ScopeWordsShort()
    ensures ScopeWord("read:profile") && ScopeWord("read:recovery")
    ensures ScopeWord("read:sleep") && ScopeWord("read:workout")
  {
  }

  lemma ScopeWordLong()
    ensures ScopeWord("read:body_measurement")
  {
  }

  lemma ScopeInert()
    ensures '&' !in Scope && '#' !in Scope && '%' !in Scope && '+' !in Scope
  {
    ScopeWordsInert();
    var w1, w2, w3, w4, w5 := "read:profile", "read:recovery", "read:sleep", "read:workout", "read:body_measurement";
    InertJoin(w1, w2);
    InertJoin(w1 + " " + w2, w3);
    InertJoin(w1 + " " + w2 + " " + w3, w4);
    InertJoin(w1 + " " + w2 + " " + w3 + " " + w4, w5);
  }

  /** The parameter names read back as themselves, hold no `#`, and differ from one another. */
  lemma NamesPlain()
    ensures PlainName("response_type") && PlainName("client_id") && PlainName("redirect_uri")
    ensures PlainName("scope") && PlainName("state")
    ensures '#' !in "response_type" && '#' !in "client_id" && '#' !in "redirect_uri" && '#' !in "scope" && '#' !in "state"
    ensures "response_type" != "client_id" && "response_type" != "redirect_uri" && "response_type" != "scope"
    ensures "response_type" != "state" && "client_id" != "redirect_uri" && "client_id" != "scope" && "client_id" != "state"
    ensures "redirect_uri" != "scope" && "redirect_uri" != "state" && "scope" != "state"
  {
    assert "scope"[1] != "state"[1];
  }

  lemma EndpointPlain()
    ensures '?' !in AuthEndpoint
  {
  }

  /** The fixed values read back as themselves. */
  lemma CodeReads()
    ensures Delimited("code") && FormDecodeText("code") == "code"
  {
    assert '&' !in "code" && '#' !in "code" && '%' !in "code" && '+' !in "code";
    FormDecodePlain("code");
  }

  lemma ScopeReads()
    ensures Delimited(Scope) && FormDecodeText(Scope) == Scope
  {
    ScopeInert();
    FormDecodePlain(Scope);
  }

  /**
   * Five `name=value` pairs with distinct plain names and values that keep to
   * their parameter, appended to an endpoint after `?`: the form parser reads
   * each name's value back.
   */
  lemma FivePairs(n1: string, n2: string, n3: string, n4: string, n5: string,
                  v1: string, v2: string, v3: string, v4: string, v5: string)
    requires PlainName(n1) && PlainName(n2) && PlainName(n3) && PlainName(n4) && PlainName(n5)
    requires '#' !in n1 && '#' !in n2 && '#' !in n3 && '#' !in n4 && '#' !in n5
    requires Delimited(v1) && Delimited(v2) && Delimited(v3) && Delimited(v4) && Delimited(v5)
    requires n1 != n2 && n1 != n3 && n1 != n4 && n1 != n5 && n2 != n3 && n2 != n4 && n2 != n5
    requires n3 != n4 && n3 != n5 && n4 != n5
    ensures var pairs := [(n1, v1), (n2, v2), (n3, v3), (n4, v4), (n5, v5)];
      && Separable(pairs)
      && (forall i :: 0 <= i < |pairs| ==> '#' !in pairs[i].0 && '#' !in pairs[i].1)
      && (forall j, k :: 0 <= j < k < |pairs| ==> pairs[j].0 != pairs[k].0)
  {
  }

  lemma ReadFive(e: string, n1: string, n2: string, n3: string, n4: string, n5: string,
                 v1: string, v2: string, v3: string, v4: string, v5: string)
    requires '?' !in e
    requires PlainName(n1) && PlainName(n2) && PlainName(n3) && PlainName(n4) && PlainName(n5)
    requires '#' !in n1 && '#' !in n2 && '#' !in n3 && '#' !in n4 && '#' !in n5
    requires Delimited(v1) && Delimited(v2) && Delimited(v3) && Delimited(v4) && Delimited(v5)
    requires n1 != n2 && n1 != n3 && n1 != n4 && n1 != n5 && n2 != n3 && n2 != n4 && n2 != n5
    requires n3 != n4 && n3 != n5 && n4 != n5
    ensures var q := QueryOf(e + "?" + Query([(n1, v1), (n2, v2), (n3, v3), (n4, v4), (n5, v5)]));
      && SearchParamsGet(q, n1) == Some(FormDecodeText(v1))
      && SearchParamsGet(q, n2) == Some(FormDecodeText(v2))
      && SearchParamsGet(q, n3) == Some(FormDecodeText(v3))
      && SearchParamsGet(q, n4) == Some(FormDecodeText(v4))
      && SearchParamsGet(q, n5) == Some(FormDecodeText(v5))
  {
    var pairs := [(n1, v1), (n2, v2), (n3, v3), (n4, v4), (n5, v5)];
    FivePairs(n1, n2, n3, n4, n5, v1, v2, v3, v4, v5);
    QueryExcludes(pairs, '#');
    QueryOfUrl(e, Query(pairs));
    GetDistinct(pairs, 0);
    GetDistinct(pairs, 1);
    GetDistinct(pairs, 2);
    GetDistinct(pairs, 3);
    GetDistinct(pairs, 4);
  }

  /**
   * What the authorization server reads from the URL's query, parsed as form
   * data: the five parameters, each as the handler meant it, provided the
   * client id and the state do not break the query apart.
   */
  lemma ProviderReads(env: Env, state: string)
    requires Delimited(Interpolate(env.whoopClientId)) && Delimited(state)
    ensures SearchParamsGet(QueryOf(AuthUrl(env, state)), "response_type") == Some("code")
    ensures SearchParamsGet(QueryOf(AuthUrl(env, state)), "client_id") == Some(FormDecodeText(Interpolate(env.whoopClientId)))
    ensures SearchParamsGet(QueryOf(AuthUrl(env, state)), "redirect_uri") == Some(Interpolate(env.whoopRedirectUri))
    ensures SearchParamsGet(QueryOf(AuthUrl(env, state)), "scope") == Some(Scope)
    ensures SearchParamsGet(QueryOf(AuthUrl(env, state)), "state") == Some(FormDecodeText(state))
  {
    var c, r := Interpolate(env.whoopClientId), EncodeUriComponent(Interpolate(env.whoopRedirectUri));
    AuthUrlIsQuery(env, state);
    NamesPlain();
    EndpointPlain();
    CodeReads();
    ScopeReads();
    EncodedInert(Interpolate(env.whoopRedirectUri));
    ReadFive(AuthEndpoint, "response_type", "client_id", "redirect_uri", "scope", "state", "code", c, r, Scope, state);
    FormDecodeEncoded(Interpolate(env.whoopRedirectUri));
  }

  /** The provider reads the state back as `whatsapp=` and the number, unchanged. */
  lemma ProviderReadsState(env: Env, whatsapp: string)
    ensures Delimited(Interpolate(env.whoopClientId)) ==>
      SearchParamsGet(QueryOf(AuthUrl(env, State(whatsapp))), "state") == Some("whatsapp=" + whatsapp)
  {
    if Delimited(Interpolate(env.whoopClientId)) {
      StateInert(whatsapp);
      ProviderReads(env, State(whatsapp));
      FormDecodeEncoded("whatsapp=" + whatsapp);
    }
  }

  /**
   * The handler: a missing or empty number is a 400 with no URL; otherwise a
   * 200 JSON body holding the authorization URL, never a redirect, whose state
   * the provider reads back as `whatsapp=` and the number.
   */
  function Handle(whatsapp: Option<string>, env: Env): (r: Response)
    ensures r.JsonError? <==> whatsapp.None? || whatsapp == Some("")
    ensures r.JsonError? ==> r == JsonError(400, MissingNumber)
    ensures !r.JsonError? ==> r.JsonUrl?
    ensures r.JsonUrl? ==> whatsapp.Some? && r.url == AuthUrl(env, State(whatsapp.value))
    ensures r.JsonUrl? && Delimited(Interpolate(env.whoopClientId)) ==>
      SearchParamsGet(QueryOf(r.url), "state") == Some("whatsapp=" + whatsapp.value)
  {
    if whatsapp.None? || whatsapp.value == "" then JsonError(400, MissingNumber)
    else
      var w := whatsapp.value;
      ProviderReadsState(env, w);
      JsonUrl(AuthUrl(env, State(w)))
  }
}
