/**
 * The `respond!` macro (src/macros.rs). Every arm of the macro matches on the
 * preferred mode, applies the optional shared toast to the branch it picks,
 * and converts that branch into a response; a format the invocation does not
 * provide is answered with 406. Every arm yields `Ok`.
 */
module Macros {
  import opened Wrappers
  import opened Json
  import opened Extract
  import Http
  import R = Response

  /** The `json =>` part of an invocation: a built `JsonResponse`, or `raw value`, which the
      macro wraps with `json(value)` itself. */
  datatype JsonArm = Typed(response: R.JsonResponse) | Raw(data: Option<JsonValue>)

  /** Which arms an invocation provides. */
  datatype Arms =
    | Both(html: R.HtmlResponse, json: JsonArm)
    | HtmlOnly(html: R.HtmlResponse)
    | JsonOnly(json: JsonArm)

  const HTML_REQUIRED := "HTML required"
  const JSON_REQUIRED := "JSON required"

  /** The bases of the responses the invocation was given. */
  function Bases(arms: Arms): set<R.BaseResponse> {
    (if arms.JsonOnly? then {} else {arms.html.base}) +
    (if !arms.HtmlOnly? && arms.json.Typed? then {arms.json.response.base} else {})
  }

  /** The `toast => (msg, lvl)` part as the list of toasts it adds. */
  function SharedToasts(toast: Option<R.Toast>): seq<R.Toast> {
    match toast
    case None => []
    case Some(t) => [t]
  }

  /** One expansion of `respond!`: the HTML arm answers an HTML-mode request and the JSON arm a
      JSON-mode one, each with the shared toast after its own; a `raw` value behaves as
      `json(value)`; a missing arm gives 406 "HTML required" or "JSON required". The result is
      always `Ok`, and only the chosen arm's toast list changes. */
  method Respond(req: SilcrowRequest, arms: Arms, toast: Option<R.Toast>) returns (r: Result<R.Response, R.Response>)
    modifies Bases(arms)
    ensures r.Ok?
    ensures req.PreferredMode() == Html && !arms.JsonOnly? ==>
      var b := arms.html.base;
      && r.value == R.HtmlOutcome(arms.html.data, old(b.headers), old(b.cookies), old(b.toasts) + SharedToasts(toast))
      && b.toasts == old(b.toasts) + SharedToasts(toast)
    ensures req.PreferredMode() == Json && !arms.HtmlOnly? && arms.json.Typed? ==>
      var b := arms.json.response.base;
      && r.value == R.JsonOutcome(arms.json.response.data, old(b.headers), old(b.cookies), old(b.toasts) + SharedToasts(toast))
      && b.toasts == old(b.toasts) + SharedToasts(toast)
    ensures req.PreferredMode() == Json && !arms.HtmlOnly? && arms.json.Raw? ==>
      r.value == R.JsonOutcome(arms.json.data, map[], [], SharedToasts(toast))
    ensures req.PreferredMode() == Html && arms.JsonOnly? ==>
      r.value == R.PlainResponse(Http.NOT_ACCEPTABLE, JSON_REQUIRED)
    ensures req.PreferredMode() == Json && arms.HtmlOnly? ==>
      r.value == R.PlainResponse(Http.NOT_ACCEPTABLE, HTML_REQUIRED)
    ensures forall b :: b in Bases(arms) ==> b.headers == old(b.headers) && b.cookies == old(b.cookies)
    ensures req.PreferredMode() == Json && arms.Both? && (arms.json.Raw? || arms.json.response.base != arms.html.base) ==>
      arms.html.base.toasts == old(arms.html.base.toasts)
    ensures req.PreferredMode() == Json && arms.HtmlOnly? ==> arms.html.base.toasts == old(arms.html.base.toasts)
    ensures req.PreferredMode() == Html && arms.Both? && arms.json.Typed? && arms.json.response.base != arms.html.base ==>
      arms.json.response.base.toasts == old(arms.json.response.base.toasts)
    ensures req.PreferredMode() == Html && arms.JsonOnly? && arms.json.Typed? ==>
      arms.json.response.base.toasts == old(arms.json.response.base.toasts)
  {
    match req.PreferredMode() {
      case Html =>
        if arms.JsonOnly? {
          return Ok(R.PlainResponse(Http.NOT_ACCEPTABLE, JSON_REQUIRED));
        }
        var h := arms.html;
        if toast.Some? {
          h.base.WithToast(toast.value.message, toast.value.level);
        }
        assert h.base.toasts == old(h.base.toasts) + SharedToasts(toast);
        var resp := h.IntoResponse();
        return Ok(resp);
      case Json =>
        if arms.HtmlOnly? {
          return Ok(R.PlainResponse(Http.NOT_ACCEPTABLE, HTML_REQUIRED));
        }
        var j: R.JsonResponse;
        match arms.json {
          case Typed(t) => j := t;
          case Raw(d) => j := R.NewJson(d);
        }
        ghost var before := j.base.toasts;
        if toast.Some? {
          j.base.WithToast(toast.value.message, toast.value.level);
        }
        assert j.base.toasts == before + SharedToasts(toast);
        if arms.json.Raw? {
          assert before + SharedToasts(toast) == SharedToasts(toast);
        }
        var resp := j.IntoResponse();
        return Ok(resp);
    }
  }
}
