/**
 * The `Responses` builder and `SilcrowRequest::select` (src/select.rs): one
 * optional producer per format, and a selector that runs only the producer
 * matching the preferred mode, or answers 406 when that producer is missing.
 */
module Select {
  import opened Wrappers
  import opened Extract
  import Response

  /**
   * A registered producer: the boxed `FnOnce` closure, already mapped through
   * `into_response`. `output` is what calling it yields; `runs` counts how
   * often it has been called, which is how the model sees which closure ran.
   */
  class Producer<E> {
    const output: Result<Response.Response, E>
    var runs: nat

    constructor (output: Result<Response.Response, E>)
      ensures this.output == output && runs == 0
    {
      this.output := output;
      runs := 0;
    }

    /** Calling the closure. */
    method Run() returns (r: Result<Response.Response, E>)
      modifies this
      ensures r == output && runs == old(runs) + 1
    {
      r := output;
      runs := runs + 1;
    }
  }

  datatype Responses<E> = Responses(html: Option<Producer<E>>, json: Option<Producer<E>>) {

    /** `Responses::html(f)`: registers the HTML producer, keeping the JSON one. */
    function WithHtml(f: Producer<E>): (r: Responses<E>)
      ensures r.html == Some(f) && r.json == json
    {
      this.(html := Some(f))
    }

    /** `Responses::json(f)`: registers the JSON producer, keeping the HTML one. */
    function WithJson(f: Producer<E>): (r: Responses<E>)
      ensures r.json == Some(f) && r.html == html
    {
      this.(json := Some(f))
    }
  }

  /** `Responses::new()` (and `Default`): no producer registered. */
  function New<E>(): (r: Responses<E>)
    ensures r.html.None? && r.json.None?
  {
    Responses(None, None)
  }

  /** The producers a builder holds. */
  function Producers<E>(responses: Responses<E>): set<Producer<E>> {
    (if responses.html.Some? then {responses.html.value} else {}) +
    (if responses.json.Some? then {responses.json.value} else {})
  }

  /** The outcome of `select`, together with which slot, if any, was chosen. */
  datatype Selection<E> = Selection(result: Result<Response.Response, E>, ran: Option<RequestMode>)

  const HTML_NOT_PROVIDED := "HTML representation not provided"
  const JSON_NOT_PROVIDED := "JSON representation not provided"

  /** The producer registered for `mode`. */
  function ProducerFor<E>(responses: Responses<E>, mode: RequestMode): Option<Producer<E>> {
    match mode
    case Html => responses.html
    case Json => responses.json
  }

  /** What `select` answers: the output of the producer registered for the preferred mode,
      `Err` included; without one, `Ok` with a 406 naming the missing format, whatever the
      other slot holds. */
  function Select<E>(req: SilcrowRequest, responses: Responses<E>): (s: Selection<E>)
    ensures s.ran.Some? ==> s.ran.value == req.PreferredMode()
    ensures s.ran.Some? <==> ProducerFor(responses, req.PreferredMode()).Some?
    ensures s.ran.Some? ==> s.result == ProducerFor(responses, req.PreferredMode()).value.output
    ensures s.ran.None? ==> s.result.Ok? && s.result.value.status == Http.NOT_ACCEPTABLE
    ensures s.ran.None? && req.PreferredMode() == Html ==> s.result.value == Response.PlainResponse(Http.NOT_ACCEPTABLE, HTML_NOT_PROVIDED)
    ensures s.ran.None? && req.PreferredMode() == Json ==> s.result.value == Response.PlainResponse(Http.NOT_ACCEPTABLE, JSON_NOT_PROVIDED)
  {
    match req.PreferredMode()
    case Html =>
      if responses.html.Some? then Selection(responses.html.value.output, Some(Html))
      else Selection(Ok(Response.PlainResponse(Http.NOT_ACCEPTABLE, HTML_NOT_PROVIDED)), None)
    case Json =>
      if responses.json.Some? then Selection(responses.json.value.output, Some(Json))
      else Selection(Ok(Response.PlainResponse(Http.NOT_ACCEPTABLE, JSON_NOT_PROVIDED)), None)
  }

  /** `select` itself: calls the chosen producer exactly once and no other producer at all,
      and returns what `Select` specifies. */
  method Execute<E>(req: SilcrowRequest, responses: Responses<E>) returns (r: Result<Response.Response, E>)
    modifies Producers(responses)
    ensures r == Select(req, responses).result
    ensures var chosen := ProducerFor(responses, req.PreferredMode());
      chosen.Some? ==> chosen.value.runs == old(chosen.value.runs) + 1
    ensures forall p :: p in Producers(responses) && Some(p) != ProducerFor(responses, req.PreferredMode()) ==>
      p.runs == old(p.runs)
  {
    match req.PreferredMode() {
      case Html =>
        if responses.html.Some? {
          r := responses.html.value.Run();
        } else {
          r := Ok(Response.PlainResponse(Http.NOT_ACCEPTABLE, HTML_NOT_PROVIDED));
        }
      case Json =>
        if responses.json.Some? {
          r := responses.json.value.Run();
        } else {
          r := Ok(Response.PlainResponse(Http.NOT_ACCEPTABLE, JSON_NOT_PROVIDED));
        }
    }
  }

  /** With both producers registered, an HTML-accepting request gets the HTML one's output and
      any other request the JSON one's. */
  lemma BothProducersFollowAccept<E>(req: SilcrowRequest, h: Producer<E>, j: Producer<E>)
    ensures var s := Select(req, New<E>().WithHtml(h).WithJson(j));
      s.ran == Some(if req.acceptsHtml then Html else Json) &&
      s.result == (if req.acceptsHtml then h.output else j.output)
  {
  }

  /** An HTML request answered by a builder holding only a JSON producer gets 406, not JSON. */
  lemma MissingHtmlIsNotAcceptable<E>(req: SilcrowRequest, j: Producer<E>)
    requires req.acceptsHtml
    ensures Select(req, New<E>().WithJson(j)) == Selection(Ok(Response.PlainResponse(Http.NOT_ACCEPTABLE, HTML_NOT_PROVIDED)), None)
  {
  }
}
