/**
 * Response shaping (src/response.rs). A `BaseResponse` collects headers,
 * cookies and toasts through the modifiers; `into_response` turns an HTML,
 * JSON or navigate response into a status, a header map and a body. JSON
 * responses carry their toasts inside the body under `_toasts`; HTML and
 * navigate responses carry them in a `silcrow_toasts` cookie.
 */
module Response {
  import opened Wrappers
  import opened Json
  import opened Http

  datatype Toast = Toast(message: string, level: string)

  /** serde's encoding of one toast: `{"message": .., "level": ..}`. */
  function ToastJson(t: Toast): JsonValue {
    Obj(map["message" := Str(t.message), "level" := Str(t.level)])
  }

  /** serde's encoding of a toast list: an array of toast objects in list order. */
  function ToastsJson(toasts: seq<Toast>): (v: JsonValue)
    ensures v.Arr? && |v.items| == |toasts|
    ensures forall i :: 0 <= i < |toasts| ==>
      v.items[i].Obj? && v.items[i].fields.Keys == {"message", "level"} &&
      v.items[i].fields["message"] == Str(toasts[i].message) && v.items[i].fields["level"] == Str(toasts[i].level)
  {
    Arr(seq(|toasts|, i requires 0 <= i < |toasts| => ToastJson(toasts[i])))
  }

  /** The derived `Deserialize` of `Toast`: an object with string fields `message` and `level`. */
  function ToastFromJson(v: JsonValue): Option<Toast> {
    match (Field(v, "message"), Field(v, "level"))
    case (Some(Str(m)), Some(Str(l))) => Some(Toast(m, l))
    case _ => None
  }

  /** Decoding a JSON array of toasts, element by element. */
  function ToastsFromJson(items: seq<JsonValue>): Option<seq<Toast>>
    decreases |items|
  {
    if items == [] then Some([])
    else match (ToastFromJson(items[0]), ToastsFromJson(items[1..]))
      case (Some(t), Some(ts)) => Some([t] + ts)
      case _ => None
  }

  /** The toast list read back from its JSON encoding is the same list, in the same order. */
  lemma {:induction false} ToastsRoundTrip(toasts: seq<Toast>)
    ensures ToastsFromJson(ToastsJson(toasts).items) == Some(toasts)
    decreases |toasts|
  {
    var items := ToastsJson(toasts).items;
    if toasts != [] {
      assert items[0] == ToastJson(toasts[0]);
      assert items[1..] == ToastsJson(toasts[1..]).items;
      ToastsRoundTrip(toasts[1..]);
      assert [toasts[0]] + toasts[1..] == toasts;
    }
  }

  /** The key under which a JSON body carries its toasts. */
  const TOASTS_KEY := "_toasts"

  /** The `_toasts` injection of `JsonResponse::into_response`: no toasts leave the payload
      alone; an object payload gains (or has overwritten) the key `_toasts`; any other payload
      is wrapped as `{"data": payload, "_toasts": toasts}`. */
  function InjectToasts(payload: JsonValue, toasts: seq<Toast>): (r: JsonValue)
    ensures toasts == [] ==> r == payload
    ensures toasts != [] ==> r.Obj? && TOASTS_KEY in r.fields && r.fields[TOASTS_KEY] == ToastsJson(toasts)
    ensures toasts != [] && payload.Obj? ==>
      r.fields.Keys == payload.fields.Keys + {TOASTS_KEY} &&
      forall k :: k in payload.fields && k != TOASTS_KEY ==> r.fields[k] == payload.fields[k]
    ensures toasts != [] && !payload.Obj? ==> r.fields.Keys == {"data", TOASTS_KEY} && r.fields["data"] == payload
  {
    if toasts == [] then payload
    else if payload.Obj? then Obj(payload.fields[TOASTS_KEY := ToastsJson(toasts)])
    else Obj(map["data" := payload, TOASTS_KEY := ToastsJson(toasts)])
  }

  /** A client reading the body gets back every toast, in order, and the payload itself:
      an object payload without its own `_toasts` key is the body minus that key, any other
      payload sits under `data`. */
  lemma InjectedToastsRecoverable(payload: JsonValue, toasts: seq<Toast>)
    requires toasts != []
    ensures var body := InjectToasts(payload, toasts);
      && ToastsFromJson(body.fields[TOASTS_KEY].items) == Some(toasts)
      && (payload.Obj? && TOASTS_KEY !in payload.fields ==> Obj(body.fields - {TOASTS_KEY}) == payload)
      && (!payload.Obj? ==> body.fields["data"] == payload)
  {
    ToastsRoundTrip(toasts);
    var body := InjectToasts(payload, toasts);
    if payload.Obj? && TOASTS_KEY !in payload.fields {
      assert body.fields - {TOASTS_KEY} == payload.fields;
    }
  }

  /** The two shapes can coincide: an object whose only key is `data` gets the same body as
      the bare value wrapped under `data`, so the body alone does not tell them apart. */
  lemma InjectionShapesOverlap(v: JsonValue, toasts: seq<Toast>)
    requires toasts != [] && !v.Obj?
    ensures InjectToasts(Obj(map["data" := v]), toasts) == InjectToasts(v, toasts)
  {
    assert map["data" := v][TOASTS_KEY := ToastsJson(toasts)] == map["data" := v, TOASTS_KEY := ToastsJson(toasts)];
  }

  /** A standard cookie, represented by the text `Cookie::to_string` renders for it. */
  datatype Cookie = Cookie(rendered: string)

  /** A response header value: plain text, or the `silcrow_toasts` cookie (Path=/, SameSite=Lax)
      whose value is the URL-encoded JSON of the toast list, kept here as that JSON. */
  datatype HeaderValue = Text(s: string) | ToastCookie(toasts: JsonValue)

  datatype Body = Empty | PlainText(text: string) | Markup(html: string) | JsonBody(value: JsonValue)

  datatype Response = Response(status: nat, headers: HeaderMap<HeaderValue>, body: Body)

  const SET_COOKIE := "set-cookie"
  const HTML_CONTENT_TYPE := "text/html; charset=utf-8"
  const JSON_CONTENT_TYPE := "application/json"
  const TEXT_CONTENT_TYPE := "text/plain; charset=utf-8"

  /** `(StatusCode, &str).into_response()`: a plain-text body with the given status. */
  function PlainResponse(status: nat, text: string): (r: Response)
    ensures r.status == status && r.body == PlainText(text)
    ensures r.headers.Keys == {"content-type"} && Get(r.headers, "content-type") == Some(Text(TEXT_CONTENT_TYPE))
  {
    Response(status, map["content-type" := [Text(TEXT_CONTENT_TYPE)]], PlainText(text))
  }

  /** The headers after the first loop of `apply_to_response`: every base header is inserted
      over whatever the response held under that name. */
  function EmitHeaders(h: HeaderMap<HeaderValue>, base: map<string, string>): HeaderMap<HeaderValue> {
    map k | k in h.Keys + base.Keys :: if k in base then [Text(base[k])] else h[k]
  }

  lemma EmitHeadersStep(h: HeaderMap<HeaderValue>, base: map<string, string>, pending: set<string>, k: string)
    requires k in pending && pending <= base.Keys
    ensures Insert(EmitHeaders(h, base - pending), k, Text(base[k])) == EmitHeaders(h, base - (pending - {k}))
  {
    var lhs := Insert(EmitHeaders(h, base - pending), k, Text(base[k]));
    var rhs := EmitHeaders(h, base - (pending - {k}));
    assert lhs.Keys == rhs.Keys;
    forall n | n in lhs.Keys ensures lhs[n] == rhs[n] { }
  }

  /** The set-cookie values the second loop of `apply_to_response` appends: the rendered
      cookies that are valid header values, in order. */
  function CookieValues(cookies: seq<Cookie>): seq<HeaderValue>
    decreases |cookies|
  {
    if cookies == [] then []
    else
      var last := cookies[|cookies| - 1];
      CookieValues(cookies[..|cookies| - 1]) + (if ValidHeaderValue(last.rendered) then [Text(last.rendered)] else [])
  }

  /** `apply_to_response`: base headers inserted, then valid cookies appended as set-cookie. */
  function Applied(r: Response, headers: map<string, string>, cookies: seq<Cookie>): Response {
    r.(headers := AppendAll(EmitHeaders(r.headers, headers), SET_COOKIE, CookieValues(cookies)))
  }

  /** `apply_toast_cookies`: one toast cookie appended exactly when there are toasts. */
  function WithToastCookie(r: Response, toasts: seq<Toast>): Response {
    if toasts == [] then r else r.(headers := Append(r.headers, SET_COOKIE, ToastCookie(ToastsJson(toasts))))
  }

  /** What `HtmlResponse::into_response` produces. */
  function HtmlOutcome(data: string, headers: map<string, string>, cookies: seq<Cookie>, toasts: seq<Toast>): Response {
    var start := Response(OK, map["content-type" := [Text(HTML_CONTENT_TYPE)]], Markup(data));
    WithToastCookie(Applied(start, headers, cookies), toasts)
  }

  /** What `JsonResponse::into_response` produces; `data` is the outcome of `serde_json::to_value`
      on the response's data, `None` when serialisation fails. */
  function JsonOutcome(data: Option<JsonValue>, headers: map<string, string>, cookies: seq<Cookie>, toasts: seq<Toast>): Response {
    match data
    case None => Response(INTERNAL_SERVER_ERROR, map[], Empty)
    case Some(v) =>
      Applied(Response(OK, map["content-type" := [Text(JSON_CONTENT_TYPE)]], JsonBody(InjectToasts(v, toasts))), headers, cookies)
  }

  /** What `NavigateResponse::into_response` produces. */
  function NavigateOutcome(path: string, headers: map<string, string>, cookies: seq<Cookie>, toasts: seq<Toast>): Response {
    var start := Response(SEE_OTHER, map["location" := [Text(path)]], Empty);
    WithToastCookie(Applied(start, headers, cookies), toasts)
  }

  /** The toast-cookie payloads among a list of header values, in order. */
  function ToastPayloads(vs: seq<HeaderValue>): seq<JsonValue>
    decreases |vs|
  {
    if vs == [] then []
    else (if vs[0].ToastCookie? then [vs[0].toasts] else []) + ToastPayloads(vs[1..])
  }

  /** The toast cookies a response sets. */
  function ToastCookiesOf(r: Response): seq<JsonValue> {
    ToastPayloads(ValuesOf(r.headers, SET_COOKIE))
  }

  lemma {:induction false} ToastPayloadsConcat(a: seq<HeaderValue>, b: seq<HeaderValue>)
    ensures ToastPayloads(a + b) == ToastPayloads(a) + ToastPayloads(b)
    decreases |a|
  {
    if a == [] {
      assert a + b == b;
    } else {
      assert (a + b)[0] == a[0];
      assert (a + b)[1..] == a[1..] + b;
      ToastPayloadsConcat(a[1..], b);
    }
  }

  lemma {:induction false} CookieValuesAreText(cookies: seq<Cookie>)
    ensures ToastPayloads(CookieValues(cookies)) == []
    decreases |cookies|
  {
    if cookies != [] {
      var last := cookies[|cookies| - 1];
      CookieValuesAreText(cookies[..|cookies| - 1]);
      ToastPayloadsConcat(CookieValues(cookies[..|cookies| - 1]),
                          if ValidHeaderValue(last.rendered) then [Text(last.rendered)] else []);
    }
  }

  /** Applying base headers and cookies never adds a toast cookie. */
  lemma AppliedAddsNoToastCookie(r: Response, headers: map<string, string>, cookies: seq<Cookie>)
    ensures SET_COOKIE !in headers ==> ToastCookiesOf(Applied(r, headers, cookies)) == ToastCookiesOf(r)
    ensures SET_COOKIE in headers ==> ToastCookiesOf(Applied(r, headers, cookies)) == []
  {
    var emitted := EmitHeaders(r.headers, headers);
    var vs := CookieValues(cookies);
    CookieValuesAreText(cookies);
    ToastPayloadsConcat(ValuesOf(emitted, SET_COOKIE), vs);
    assert ToastPayloads([Text(if SET_COOKIE in headers then headers[SET_COOKIE] else "")]) == [];
    if vs != [] {
      assert ValuesOf(AppendAll(emitted, SET_COOKIE, vs), SET_COOKIE) == ValuesOf(emitted, SET_COOKIE) + vs;
    }
    assert ToastPayloads(ValuesOf(emitted, SET_COOKIE) + vs) == ToastPayloads(ValuesOf(emitted, SET_COOKIE));
  }

  lemma ToastCookieAppended(r: Response, toasts: seq<Toast>)
    ensures ToastCookiesOf(WithToastCookie(r, toasts))
         == ToastCookiesOf(r) + (if toasts == [] then [] else [ToastsJson(toasts)])
  {
    if toasts != [] {
      var v := ToastCookie(ToastsJson(toasts));
      ToastPayloadsConcat(ValuesOf(r.headers, SET_COOKIE), [v]);
    }
  }

  /** HTML and navigate responses set the toast cookie exactly when there are toasts, and it
      carries the whole toast list; JSON responses never set one. */
  lemma ToastCookieOnlyWithToasts(data: string, path: string, payload: Option<JsonValue>,
                                  headers: map<string, string>, cookies: seq<Cookie>, toasts: seq<Toast>)
    ensures ToastCookiesOf(HtmlOutcome(data, headers, cookies, toasts)) == if toasts == [] then [] else [ToastsJson(toasts)]
    ensures ToastCookiesOf(NavigateOutcome(path, headers, cookies, toasts)) == if toasts == [] then [] else [ToastsJson(toasts)]
    ensures ToastCookiesOf(JsonOutcome(payload, headers, cookies, toasts)) == []
  {
    var h := Response(OK, map["content-type" := [Text(HTML_CONTENT_TYPE)]], Markup(data));
    AppliedAddsNoToastCookie(h, headers, cookies);
    ToastCookieAppended(Applied(h, headers, cookies), toasts);
    var n := Response(SEE_OTHER, map["location" := [Text(path)]], Empty);
    AppliedAddsNoToastCookie(n, headers, cookies);
    ToastCookieAppended(Applied(n, headers, cookies), toasts);
    if payload.Some? {
      var j := Response(OK, map["content-type" := [Text(JSON_CONTENT_TYPE)]], JsonBody(InjectToasts(payload.value, toasts)));
      AppliedAddsNoToastCookie(j, headers, cookies);
    }
  }

  /** Navigate responses are always 303; HTML responses are 200 with the markup as body; JSON
      responses are 200 with the toast-injected payload, or 500 with nothing else when the data
      does not serialise (base headers and cookies are then dropped too). */
  lemma StatusAndBody(data: string, path: string, payload: Option<JsonValue>,
                      headers: map<string, string>, cookies: seq<Cookie>, toasts: seq<Toast>)
    ensures NavigateOutcome(path, headers, cookies, toasts).status == SEE_OTHER
    ensures var r := HtmlOutcome(data, headers, cookies, toasts); r.status == OK && r.body == Markup(data)
    ensures payload.None? ==> JsonOutcome(payload, headers, cookies, toasts) == Response(INTERNAL_SERVER_ERROR, map[], Empty)
    ensures payload.Some? ==> var r := JsonOutcome(payload, headers, cookies, toasts);
      r.status == OK && r.body == JsonBody(InjectToasts(payload.value, toasts))
  {
  }

  /** Every header set on the base reaches the response with exactly its value, whichever of the
      three kinds it is (a JSON response only when its data serialises). */
  lemma BaseHeadersReachResponse(k: string, data: string, path: string, payload: Option<JsonValue>,
                                 headers: map<string, string>, cookies: seq<Cookie>, toasts: seq<Toast>)
    requires k in headers && k != SET_COOKIE
    ensures ValuesOf(HtmlOutcome(data, headers, cookies, toasts).headers, k) == [Text(headers[k])]
    ensures ValuesOf(NavigateOutcome(path, headers, cookies, toasts).headers, k) == [Text(headers[k])]
    ensures payload.Some? ==> ValuesOf(JsonOutcome(payload, headers, cookies, toasts).headers, k) == [Text(headers[k])]
  {
  }

  /** The headers each response kind sets itself reach the client: the navigate `location` is
      the path and the content types are the HTML and JSON ones, unless the base sets the same
      header, in which case the base value replaces it. */
  lemma OwnHeadersReachResponse(data: string, path: string, payload: Option<JsonValue>,
                                headers: map<string, string>, cookies: seq<Cookie>, toasts: seq<Toast>)
    ensures ValuesOf(NavigateOutcome(path, headers, cookies, toasts).headers, "location")
         == [Text(if "location" in headers then headers["location"] else path)]
    ensures ValuesOf(HtmlOutcome(data, headers, cookies, toasts).headers, "content-type")
         == [Text(if "content-type" in headers then headers["content-type"] else HTML_CONTENT_TYPE)]
    ensures payload.Some? ==>
      ValuesOf(JsonOutcome(payload, headers, cookies, toasts).headers, "content-type")
         == [Text(if "content-type" in headers then headers["content-type"] else JSON_CONTENT_TYPE)]
  {
  }

  /**
   * The shared modifier state of every response kind. The modifiers change it in
   * place; the two `apply_*` methods read it into a response.
   */
  class BaseResponse {
    var headers: map<string, string>
    var cookies: seq<Cookie>
    var toasts: seq<Toast>

    /** `BaseResponse::default()`. */
    constructor ()
      ensures headers == map[] && cookies == [] && toasts == []
    {
      headers := map[];
      cookies := [];
      toasts := [];
    }

    /** `with_header`: a valid value sets or replaces `key`; an invalid one changes nothing. */
    method WithHeader(key: string, value: string)
      modifies this
      ensures headers == if ValidHeaderValue(value) then old(headers)[key := value] else old(headers)
      ensures cookies == old(cookies) && toasts == old(toasts)
    {
      if ValidHeaderValue(value) {
        headers := headers[key := value];
      }
    }

    /** `no_cache`: the same as `with_header("silcrow-cache", "no-cache")`, which always takes. */
    method NoCache()
      modifies this
      ensures headers == old(headers)["silcrow-cache" := "no-cache"]
      ensures cookies == old(cookies) && toasts == old(toasts)
    {
      WithHeader("silcrow-cache", "no-cache");
    }

    /** `with_toast`: one toast added at the end; the earlier ones stay, in order. */
    method WithToast(message: string, level: string)
      modifies this
      ensures toasts == old(toasts) + [Toast(message, level)]
      ensures headers == old(headers) && cookies == old(cookies)
    {
      toasts := toasts + [Toast(message, level)];
    }

    /** `apply_to_response`: inserts every base header, then appends every cookie whose
        rendering is a valid header value; status and body are untouched. */
    method ApplyToResponse(response: Response) returns (r: Response)
      ensures r == Applied(response, headers, cookies)
    {
      var out := response.headers;
      var pending := headers.Keys;
      while pending != {}
        invariant pending <= headers.Keys
        invariant out == EmitHeaders(response.headers, headers - pending)
        decreases pending
      {
        var k :| k in pending;
        EmitHeadersStep(response.headers, headers, pending, k);
        out := Insert(out, k, Text(headers[k]));
        pending := pending - {k};
      }
      assert headers - {} == headers;
      var emitted := out;
      var i := 0;
      while i < |cookies|
        invariant 0 <= i <= |cookies|
        invariant out == AppendAll(emitted, SET_COOKIE, CookieValues(cookies[..i]))
      {
        var c := cookies[i];
        assert cookies[..i + 1][..i] == cookies[..i];
        var before := CookieValues(cookies[..i]);
        assert CookieValues(cookies[..i + 1]) == before + (if ValidHeaderValue(c.rendered) then [Text(c.rendered)] else []);
        assert before + [] == before;
        if ValidHeaderValue(c.rendered) {
          AppendAllStep(emitted, SET_COOKIE, CookieValues(cookies[..i]), Text(c.rendered));
          out := Append(out, SET_COOKIE, Text(c.rendered));
        }
        i := i + 1;
      }
      assert cookies[..|cookies|] == cookies;
      r := response.(headers := out);
    }

    /** `apply_toast_cookies`: appends the toast cookie when, and only when, there are toasts. */
    method ApplyToastCookies(response: Response) returns (r: Response)
      ensures r == WithToastCookie(response, toasts)
    {
      r := response;
      if toasts != [] {
        r := response.(headers := Append(response.headers, SET_COOKIE, ToastCookie(ToastsJson(toasts))));
      }
    }
  }

  datatype HtmlResponse = HtmlResponse(data: string, base: BaseResponse) {
    method IntoResponse() returns (r: Response)
      ensures r == HtmlOutcome(data, base.headers, base.cookies, base.toasts)
    {
      r := Response(OK, map["content-type" := [Text(HTML_CONTENT_TYPE)]], Markup(data));
      r := base.ApplyToResponse(r);
      r := base.ApplyToastCookies(r);
    }
  }

  /** A JSON response; `data` is what `serde_json::to_value` makes of the user's value. */
  datatype JsonResponse = JsonResponse(data: Option<JsonValue>, base: BaseResponse) {
    method IntoResponse() returns (r: Response)
      ensures r == JsonOutcome(data, base.headers, base.cookies, base.toasts)
    {
      if data.None? {
        return Response(INTERNAL_SERVER_ERROR, map[], Empty);
      }
      var payload := InjectToasts(data.value, base.toasts);
      r := Response(OK, map["content-type" := [Text(JSON_CONTENT_TYPE)]], JsonBody(payload));
      r := base.ApplyToResponse(r);
    }
  }

  datatype NavigateResponse = NavigateResponse(path: string, base: BaseResponse) {
    method IntoResponse() returns (r: Response)
      ensures r == NavigateOutcome(path, base.headers, base.cookies, base.toasts)
    {
      r := Response(SEE_OTHER, map["location" := [Text(path)]], Empty);
      r := base.ApplyToResponse(r);
      r := base.ApplyToastCookies(r);
    }
  }

  /** `html(data)`: markup with an empty base. */
  method NewHtml(data: string) returns (r: HtmlResponse)
    ensures r.data == data && fresh(r.base)
    ensures r.base.headers == map[] && r.base.cookies == [] && r.base.toasts == []
  {
    var base := new BaseResponse();
    r := HtmlResponse(data, base);
  }

  /** `json(data)`: a value (already serialised, or `None`) with an empty base. */
  method NewJson(data: Option<JsonValue>) returns (r: JsonResponse)
    ensures r.data == data && fresh(r.base)
    ensures r.base.headers == map[] && r.base.cookies == [] && r.base.toasts == []
  {
    var base := new BaseResponse();
    r := JsonResponse(data, base);
  }

  /** `navigate(path)`: a redirect target with an empty base. */
  method NewNavigate(path: string) returns (r: NavigateResponse)
    ensures r.path == path && fresh(r.base)
    ensures r.base.headers == map[] && r.base.cookies == [] && r.base.toasts == []
  {
    var base := new BaseResponse();
    r := NavigateResponse(path, base);
  }
}
