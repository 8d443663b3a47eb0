/**
 * pages/login-redirect.js: the server-side step of the login page, which
 * forwards a number to api/login.js.
 */
module LoginRedirect {

  import opened Js
  import opened Uri

  /** What getServerSideProps returns. */
  datatype Props = NotFound | RedirectTo(destination: string, permanent: bool)

  const LoginPath: string := "/api/login"
  const LoginQuery: string := "/api/login?whatsapp="

  /** The destination: `/api/login?whatsapp=` and the percent-encoded number. */
  function Destination(whatsapp: string): (r: string)
    ensures |r| >= |LoginQuery| && r[..|LoginQuery|] == LoginQuery
    ensures forall i :: |LoginQuery| <= i < |r| ==> r[i] == '%' || IsUnreserved(r[i])
  {
    LoginQuery + EncodeUriComponent(whatsapp)
  }

  lemma LoginQueryParts()
    ensures LoginQuery == LoginPath + "?" + ("whatsapp" + "=")
  {
  }

  lemma LiteralsPlain()
    ensures '?' !in LoginPath && PlainName("whatsapp")
  {
  }

  lemma DestinationParts(whatsapp: string)
    ensures Destination(whatsapp) == LoginPath + "?" + ("whatsapp" + "=" + EncodeUriComponent(whatsapp))
    ensures '?' !in LoginPath && PlainName("whatsapp")
  {
    LoginQueryParts();
    LiteralsPlain();
  }

  /** Decoding what follows `whatsapp=` in the destination gives back the number. */
  lemma DestinationDecodes(whatsapp: string)
    ensures |Destination(whatsapp)| >= |LoginQuery| && Destination(whatsapp)[..|LoginQuery|] == LoginQuery
    ensures DecodeUriComponent(Destination(whatsapp)[|LoginQuery|..]) == Some(whatsapp)
  {
    var d := Destination(whatsapp);
    assert d[|LoginQuery|..] == EncodeUriComponent(whatsapp);
    Uri.DecodeEncode(whatsapp);
  }

  /**
   * Behind any origin without a `?`, the login endpoint, parsing its query
   * as form data, receives exactly the number.
   */
  lemma ReceivesBehind(origin: string, whatsapp: string)
    requires '?' !in origin
    ensures SearchParamsGet(QueryOf(origin + Destination(whatsapp)), "whatsapp") == Some(whatsapp)
  {
    var e := EncodeUriComponent(whatsapp);
    var q := "whatsapp" + "=" + e;
    assert QueryOf(origin + Destination(whatsapp)) == q by {
      DestinationParts(whatsapp);
      EncodedInert(whatsapp);
      assert '#' !in q;
      assert origin + Destination(whatsapp) == (origin + LoginPath) + "?" + q;
      QueryOfUrl(origin + LoginPath, q);
    }
    assert SearchParamsGet(q, "whatsapp") == Some(FormDecodeText(e)) by {
      DestinationParts(whatsapp);
      EncodedInert(whatsapp);
      GetSinglePair("whatsapp", e);
    }
    FormDecodeEncoded(whatsapp);
  }

  /** The login endpoint, parsing its query as form data, receives exactly the number. */
  lemma LoginReceives(whatsapp: string)
    ensures SearchParamsGet(QueryOf(Destination(whatsapp)), "whatsapp") == Some(whatsapp)
  {
    ReceivesBehind("", whatsapp);
    assert "" + Destination(whatsapp) == Destination(whatsapp);
  }

  /**
   * getServerSideProps: no number (or an empty one) is notFound and no
   * redirect; otherwise a redirect, never permanent, to the login endpoint,
   * which receives exactly the number.
   */
  function GetServerSideProps(whatsapp: Option<string>): (r: Props)
    ensures r.NotFound? <==> whatsapp.None? || whatsapp == Some("")
    ensures r.RedirectTo? ==> !r.permanent
    ensures r.RedirectTo? ==> SearchParamsGet(QueryOf(r.destination), "whatsapp") == whatsapp
    ensures r.RedirectTo? ==> |r.destination| >= |LoginQuery| && r.destination[..|LoginQuery|] == LoginQuery
    ensures r.RedirectTo? ==> DecodeUriComponent(r.destination[|LoginQuery|..]) == whatsapp
  {
    if whatsapp.None? || whatsapp.value == "" then NotFound
    else
      LoginReceives(whatsapp.value);
      DestinationDecodes(whatsapp.value);
      RedirectTo(Destination(whatsapp.value), false)
  }
}
