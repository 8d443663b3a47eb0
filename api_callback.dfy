/**
 * api/callback.js: the OAuth redirect target (section 4.1.2 of RFC 6749).
 * It reads the number from `state` as form data, exchanges the code, appends
 * a document to `whoop_tokens` and sends the browser to the chat.
 */
module ApiCallback {

  import opened Js
  import opened Uri
  import opened Http
  import opened Tokens

  const InvalidRequest: string := "Missing code or invalid WhatsApp number"
  const Failed: string := "OAuth callback failed"
  const ChatBase: string := "https://wa.me/"

  /** `new URLSearchParams(state).get("whatsapp")`; an absent state parses as no pairs. */
  function StateNumber(state: Option<string>): (r: Option<string>)
    ensures state.None? ==> r.None?
    ensures state == Some("") ==> r.None?
  {
    if state.None? then None else SearchParamsGet(state.value, "whatsapp")
  }

  /** `whatsapp=w` with no `&` in `w` gives `w` read as form data. */
  lemma StateNumberOf(w: string)
    requires '&' !in w
    ensures StateNumber(Some("whatsapp=" + w)) == Some(FormDecodeText(w))
  {
    NamePlain();
    StatePrefix(w);
    GetSinglePair("whatsapp", w);
  }

  lemma NamePlain()
    ensures PlainName("whatsapp")
  {
  }

  lemma StatePrefix(w: string)
    ensures "whatsapp=" + w == "whatsapp" + "=" + w
  {
    assert "whatsapp=" == "whatsapp" + "=";
  }

  /**
   * Without `&` or `%`, the number comes back with every `+` turned into a
   * space; so it comes back unchanged exactly when it also has no `+`.
   */
  lemma StateNumberPlus(w: string)
    requires '&' !in w && '%' !in w
    ensures StateNumber(Some("whatsapp=" + w)) == Some(Substitute(w, '+', ' '))
    ensures StateNumber(Some("whatsapp=" + w)) == Some(w) <==> '+' !in w
  {
    StateNumberOf(w);
    FormDecodePlus(w);
    if '+' in w {
      var i :| 0 <= i < |w| && w[i] == '+';
      assert Substitute(w, '+', ' ')[i] == ' ';
    } else {
      SubstituteAbsent(w, '+', ' ');
    }
  }

  /** `whatsapp=` with nothing after it gives the empty string, which the handler then rejects. */
  lemma StateNumberEmpty()
    ensures StateNumber(Some("whatsapp=")) == Some("")
  {
    StateNumberOf("");
    assert "whatsapp=" + "" == "whatsapp=";
  }

  /** The stored document: `{ whatsapp, ...tokenData, created_at: new Date() }`; later keys win. */
  function Record(whatsapp: string, tokenData: Doc, now: int): (doc: Doc)
    ensures doc.Keys == tokenData.Keys + {"whatsapp", "created_at"}
    ensures doc["created_at"] == Date(now)
    ensures forall k :: k in tokenData && k != "created_at" ==> doc[k] == tokenData[k]
    ensures "whatsapp" !in tokenData ==> Matches(doc, whatsapp)
  {
    map["whatsapp" := Str(whatsapp)] + tokenData + map["created_at" := Date(now)]
  }

  /** What one callback answers, and the document it inserts, if any. */
  datatype Outcome = Outcome(response: Response, inserted: Option<Doc>)

  /**
   * The token exchange inside the try block: the token endpoint's parsed
   * JSON body, or the message of the error thrown by the request or the
   * parsing (`err.message`).
   */
  datatype Exchange = Exchanged(body: Doc) | Threw(message: string)

  /** The request carries a code and a state from which a non-empty number is read. */
  predicate Accepted(code: Option<string>, state: Option<string>) {
    code.Some? && code != Some("") && StateNumber(state).Some? && StateNumber(state) != Some("")
  }

  /**
   * The callback. Its HTTP status is never looked at, so an error body from
   * the token endpoint is stored like a token; a thrown error is answered
   * with 500 and its message in the `debug` field.
   */
  function Callback(code: Option<string>, state: Option<string>, exchange: Exchange, now: int): (o: Outcome)
    ensures o.inserted.Some? <==> o.response.Redirect?
    ensures o.response.Redirect? || o.response == JsonError(400, InvalidRequest) || o.response.JsonErrorDebug?
    ensures o.response == JsonError(400, InvalidRequest) <==> !Accepted(code, state)
    ensures o.response.JsonErrorDebug? <==> Accepted(code, state) && exchange.Threw?
    ensures o.response.JsonErrorDebug? ==> o.response == JsonErrorDebug(500, Failed, exchange.message)
    ensures o.response.Redirect? <==> Accepted(code, state) && exchange.Exchanged?
    ensures o.response.Redirect? ==>
      && StateNumber(state).Some? && exchange.Exchanged?
      && o.inserted == Some(Record(StateNumber(state).value, exchange.body, now))
      && o.response.location == ChatBase + EncodeUriComponent(StateNumber(state).value)
  {
    var whatsapp := StateNumber(state);
    if code.None? || code.value == "" || whatsapp.None? || whatsapp.value == "" then
      Outcome(JsonError(400, InvalidRequest), None)
    else
      match exchange
      case Threw(message) => Outcome(JsonErrorDebug(500, Failed, message), None)
      case Exchanged(body) =>
        Outcome(Redirect(ChatBase + EncodeUriComponent(whatsapp.value)), Some(Record(whatsapp.value, body, now)))
  }

  /** A rejected request never consults the token endpoint: its answer cannot depend on it. */
  lemma RejectedBeforeExchange(code: Option<string>, state: Option<string>, t1: Exchange, t2: Exchange, now: int)
    requires Callback(code, state, t1, now).response.JsonError?
    requires Callback(code, state, t1, now).response.status == 400
    ensures Callback(code, state, t2, now) == Callback(code, state, t1, now)
    ensures Callback(code, state, t1, now).inserted.None?
  {
  }

  /** The chat link's path decodes to the number. */
  lemma ChatLinkDecodes(whatsapp: string)
    ensures DecodeUriComponent((ChatBase + EncodeUriComponent(whatsapp))[|ChatBase|..]) == Some(whatsapp)
  {
    assert (ChatBase + EncodeUriComponent(whatsapp))[|ChatBase|..] == EncodeUriComponent(whatsapp);
    Uri.DecodeEncode(whatsapp);
  }

  /** One callback request, with the token endpoint's answer and the clock it sees. */
  datatype Call = Call(code: Option<string>, state: Option<string>, exchange: Exchange, now: int)

  /** The collection after a run of callbacks, in order. */
  function Replay(docs: seq<Doc>, calls: seq<Call>): (r: seq<Doc>)
    ensures |r| >= |docs|
    decreases |calls|
  {
    if calls == [] then docs
    else
      var c := calls[|calls| - 1];
      var o := Callback(c.code, c.state, c.exchange, c.now);
      Replay(docs, calls[..|calls| - 1]) + (if o.inserted.Some? then [o.inserted.value] else [])
  }

  /** Whether a callback succeeds for the given number. */
  predicate StoresFor(c: Call, whatsapp: string) {
    Callback(c.code, c.state, c.exchange, c.now).response.Redirect? && StateNumber(c.state) == Some(whatsapp)
  }

  function Successes(calls: seq<Call>, whatsapp: string): (n: nat)
    ensures n <= |calls|
    decreases |calls|
  {
    if calls == [] then 0
    else (if StoresFor(calls[|calls| - 1], whatsapp) then 1 else 0) + Successes(calls[..|calls| - 1], whatsapp)
  }

  /**
   * No upsert: every successful callback for a number adds one more document
   * for it, so n successful callbacks leave n new documents (as long as the
   * token bodies carry no `whatsapp` field of their own).
   */
  lemma {:induction false} ReplayCount(docs: seq<Doc>, calls: seq<Call>, whatsapp: string)
    requires forall i :: 0 <= i < |calls| && calls[i].exchange.Exchanged? ==> "whatsapp" !in calls[i].exchange.body
    ensures Count(Replay(docs, calls), whatsapp) == Count(docs, whatsapp) + Successes(calls, whatsapp)
    decreases |calls|
  {
    if calls != [] {
      var init := calls[..|calls| - 1];
      var c := calls[|calls| - 1];
      var o := Callback(c.code, c.state, c.exchange, c.now);
      ReplayCount(docs, init, whatsapp);
      assert Successes(calls, whatsapp) == (if StoresFor(c, whatsapp) then 1 else 0) + Successes(init, whatsapp);
      if o.inserted.Some? {
        assert Replay(docs, calls) == Replay(docs, init) + [o.inserted.value];
        CountAppend(Replay(docs, init), o.inserted.value, whatsapp);
        var n := StateNumber(c.state).value;
        assert c.exchange.Exchanged? && "whatsapp" !in c.exchange.body;
        assert o.inserted.value == Record(n, c.exchange.body, c.now);
        assert Matches(o.inserted.value, n);
        assert StoresFor(c, whatsapp) <==> n == whatsapp;
        assert Matches(o.inserted.value, whatsapp) <==> n == whatsapp;
      } else {
        assert Replay(docs, calls) == Replay(docs, init) + [];
        assert Replay(docs, init) + [] == Replay(docs, init);
      }
    }
  }

  /**
   * The handler: answers as Callback does and, when it inserts, appends that
   * one document to the collection; otherwise the collection is unchanged.
   */
  method Handle(tokens: Collection, code: Option<string>, state: Option<string>, exchange: Exchange, now: int)
    returns (r: Response)
    modifies tokens
    ensures r == Callback(code, state, exchange, now).response
    ensures var o := Callback(code, state, exchange, now);
      tokens.docs == old(tokens.docs) + (if o.inserted.Some? then [o.inserted.value] else [])
  {
    var whatsapp := StateNumber(state);
    if code.None? || code.value == "" || whatsapp.None? || whatsapp.value == "" {
      return JsonError(400, InvalidRequest);
    }
    if exchange.Threw? {
      return JsonErrorDebug(500, Failed, exchange.message);
    }
    tokens.InsertOne(Record(whatsapp.value, exchange.body, now));
    r := Redirect(ChatBase + EncodeUriComponent(whatsapp.value));
  }
}
